/**
  The items of a house as they are saved to a stream of bytes and loaded again.  A container writes its contents
  from back to front, inside its own attributes; loading puts each item in front of those before it.
 */
module MapItems {
  import opened ItemTypes
  import opened Options
  import opened PropStreams

  // An attribute with the bytes that follow its tag
  datatype Attr = Attr(tag: byte, data: seq<byte>)

  // An item with its contents, the front one first
  datatype MapItem = MapItem(id: int, attrs: seq<Attr>, kids: seq<MapItem>)

  const ATTR_CONTAINER_ITEMS: byte := 23

  // ---------- attributes ----------

  function Half(x: int): (s: seq<byte>)
    requires 0 <= x < 0x1_0000
    ensures |s| == 2
  {
    [x % 0x100, x / 0x100]
  }

  function Unhalf(s: seq<byte>): int
    requires |s| >= 2
  {
    s[0] as int + 0x100 * s[1] as int
  }

  // How many bytes an attribute takes from a stream, or none if it is unknown or cut off
  function AttrSize(tag: byte, s: seq<byte>): (n: Option<nat>)
    ensures n.Some? ==> n.value <= |s|
  {
    var n :=
      if tag in {12, 14, 15, 17, 32, 33} then 1
      else if tag in {4, 5, 10, 22} then 2
      else if tag in {16, 18, 20, 21, 27, 28, 29, 30, 31, 35} then 4
      else if tag == 8 then 5
      else if tag in {6, 7, 19, 24, 25, 26, 34} then (if |s| < 2 then -1 else 2 + Unhalf(s))
      else -1;
    if 0 <= n <= |s| then Some(n) else None
  }

  // An attribute as it is written: a known tag with all its bytes and no more
  ghost predicate ProperAttr(a: Attr)
  {
    AttrSize(a.tag, a.data) == Some(|a.data|)
  }

  lemma {:induction false} AttrSizeThere(a: Attr, tail: seq<byte>)
    requires ProperAttr(a)
    ensures a.tag != 0 && a.tag != ATTR_CONTAINER_ITEMS
    ensures AttrSize(a.tag, a.data + tail) == Some(|a.data|)
  {
  }

  function AttrBytes(attrs: seq<Attr>): seq<byte>
  {
    if attrs == [] then [] else [attrs[0].tag] + attrs[0].data + AttrBytes(attrs[1..])
  }

  datatype AttrRead = AttrRead(ok: bool, attrs: seq<Attr>, items: uint32, rest: seq<byte>)

  // Attributes up to the end mark, to the end of the stream or to the number of items in a container
  function ReadAttrs(container: bool, s: seq<byte>): (r: AttrRead)
    ensures |r.rest| <= |s|
    decreases |s|
  {
    if s == [] then AttrRead(true, [], 0, [])
    else if s[0] == 0 then AttrRead(true, [], 0, s[1..])
    else if container && s[0] == ATTR_CONTAINER_ITEMS then
      if |s| < 5 then AttrRead(false, [], 0, s[1..]) else AttrRead(true, [], Unword(s[1..5]), s[5..])
    else
      var n := AttrSize(s[0], s[1..]);
      if n.None? then AttrRead(false, [], 0, s[1..])
      else
        var r := ReadAttrs(container, s[1..][n.value..]);
        r.(attrs := [Attr(s[0], s[1..][..n.value])] + r.attrs)
  }

  // Reading takes in exactly the written attributes.
  lemma {:induction false} AttrsRoundTrip(container: bool, attrs: seq<Attr>, tail: seq<byte>)
    requires forall a <- attrs :: ProperAttr(a)
    ensures ReadAttrs(container, AttrBytes(attrs) + tail) == Behind(attrs, ReadAttrs(container, tail))
  {
    hide ProperAttr, ReadAttrs, Behind;
    BehindBoth(attrs, ReadAttrs(container, tail));
    if attrs == [] {
      assert AttrBytes(attrs) + tail == tail;
    } else {
      var a, rest := attrs[0], AttrBytes(attrs[1..]) + tail;
      assert AttrBytes(attrs) + tail == [a.tag] + (a.data + rest);
      AttrRoundTrip(container, a, rest);
      AttrsRoundTrip(container, attrs[1..], tail);
    }
  }

  // A reading with attributes in front
  function Behind(attrs: seq<Attr>, r: AttrRead): AttrRead
  {
    r.(attrs := attrs + r.attrs)
  }

  lemma {:induction false} BehindBoth(attrs: seq<Attr>, r: AttrRead)
    ensures if attrs == [] then Behind(attrs, r) == r else Behind([attrs[0]], Behind(attrs[1..], r)) == Behind(attrs, r)
  {
    if attrs == [] {
      assert [] + r.attrs == r.attrs;
    } else {
      assert [attrs[0]] + (attrs[1..] + r.attrs) == attrs + r.attrs;
    }
  }

  lemma {:induction false} AttrRoundTrip(container: bool, a: Attr, rest: seq<byte>)
    requires ProperAttr(a)
    ensures ReadAttrs(container, [a.tag] + (a.data + rest)) == Behind([a], ReadAttrs(container, rest))
  {
    hide ProperAttr, AttrSize;
    var s := [a.tag] + (a.data + rest);
    assert s[1..] == a.data + rest;
    AttrSizeThere(a, rest);
    assert s[1..][..|a.data|] == a.data && s[1..][|a.data|..] == rest;
  }

  // ---------- saving ----------

  ghost predicate Proper(types: Types, ts: seq<MapItem>)
  {
    ts != [] ==>
      && ProperItem(types, ts[0].id, ts[0].attrs, |ts[0].kids|)
      && Proper(types, ts[0].kids) && Proper(types, ts[1..])
  }

  // A known type, whole attributes, and contents only in a container
  ghost predicate ProperItem(types: Types, id: int, attrs: seq<Attr>, n: nat)
  {
    && id in types && 0 <= id < 0x1_0000
    && (types[id].container ==> types[id].special && n < 0x1_0000_0000)
    && (!types[id].container ==> n == 0)
    && forall a <- attrs :: ProperAttr(a)
  }

  // The bytes of one item, given those of its contents
  function ItemBytes(types: Types, id: int, attrs: seq<Attr>, n: nat, contents: seq<byte>): seq<byte>
  {
    Half(id % 0x1_0000) + AttrBytes(attrs)
      + (if IsContainer(types, id) then [ATTR_CONTAINER_ITEMS] + Word(n % 0x1_0000_0000) + contents else []) + [0]
  }

  // The bytes of a row of items, the last one first
  function Saved(types: Types, ts: seq<MapItem>): seq<byte>
  {
    if ts == [] then [] else
      Saved(types, ts[1..]) + ItemBytes(types, ts[0].id, ts[0].attrs, |ts[0].kids|, Saved(types, ts[0].kids))
  }

  // ---------- loading ----------

  datatype ItemRead = ItemRead(ok: bool, items: seq<MapItem>, rest: seq<byte>)

  // One item, or none if its type is unknown
  function LoadItem(types: Types, s: seq<byte>): (r: ItemRead)
    ensures r.ok ==> |r.rest| + 2 <= |s|
    decreases |s|, 0
  {
    if |s| < 2 then ItemRead(false, [], s)
    else
      var id := Unhalf(s);
      if id !in types then ItemRead(true, [], s[2..])
      else
        var r := ReadAttrs(types[id].container, s[2..]);
        if !r.ok then ItemRead(false, [], r.rest)
        else if !types[id].container then ItemRead(true, [MapItem(Created(types, id), r.attrs, [])], r.rest)
        else
          var c := LoadItems(types, r.items, r.rest);
          if !c.ok || c.rest == [] || c.rest[0] != 0 then ItemRead(false, [], c.rest)
          else ItemRead(true, [MapItem(Created(types, id), r.attrs, c.items)], c.rest[1..])
  }

  // n items, each in front of those before it
  function LoadItems(types: Types, n: nat, s: seq<byte>): (r: ItemRead)
    ensures r.ok ==> |r.rest| <= |s|
    decreases |s|, n + 1
  {
    if n == 0 then ItemRead(true, [], s)
    else
      var i := LoadItem(types, s);
      if !i.ok then i
      else
        var r := LoadItems(types, n - 1, i.rest);
        r.(items := r.items + i.items)
  }

  // ---------- the round trip ----------

  // The items as they come back: where a type is an alias, as items of the other type
  function Reloaded(types: Types, ts: seq<MapItem>): seq<MapItem>
  {
    if ts == [] then [] else
      [MapItem(Created(types, ts[0].id), ts[0].attrs, Reloaded(types, ts[0].kids))] + Reloaded(types, ts[1..])
  }

  lemma {:induction false} LoadMore(types: Types, n: nat, m: nat, s: seq<byte>)
    requires LoadItems(types, n, s).ok && LoadItems(types, m, LoadItems(types, n, s).rest).ok
    ensures var r := LoadItems(types, n, s); var q := LoadItems(types, m, r.rest);
      LoadItems(types, n + m, s) == ItemRead(true, q.items + r.items, q.rest)
    decreases n
  {
    hide LoadItem;
    if n > 0 {
      var i := LoadItem(types, s);
      LoadMore(types, n - 1, m, i.rest);
    }
  }

  lemma {:induction false} HalfRoundTrip(x: int, rest: seq<byte>)
    requires 0 <= x < 0x1_0000
    ensures |Half(x) + rest| >= 2 && Unhalf(Half(x) + rest) == x && (Half(x) + rest)[2..] == rest
  {
  }

  // An item comes back from exactly its own bytes, if its contents do.
  lemma {:induction false} ItemRoundTrip(types: Types, t: MapItem, contents: seq<byte>, kids: seq<MapItem>,
                                         tail: seq<byte>)
    requires ProperItem(types, t.id, t.attrs, |t.kids|)
    requires !IsContainer(types, t.id) ==> kids == []
    requires LoadItems(types, |t.kids|, contents + [0] + tail) == ItemRead(true, kids, [0] + tail)
    ensures LoadItem(types, ItemBytes(types, t.id, t.attrs, |t.kids|, contents) + tail)
      == ItemRead(true, [MapItem(Created(types, t.id), t.attrs, kids)], tail)
  {
    hide ProperAttr, LoadItems, ReadAttrs, AttrBytes, Half, Unhalf, Word;
    var s := ItemBytes(types, t.id, t.attrs, |t.kids|, contents) + tail;
    var after := (if IsContainer(types, t.id) then [ATTR_CONTAINER_ITEMS] + Word(|t.kids|) + contents else []) + [0]
      + tail;
    assert s == Half(t.id) + (AttrBytes(t.attrs) + after);
    HalfRoundTrip(t.id, AttrBytes(t.attrs) + after);
    AttrsRoundTrip(IsContainer(types, t.id), t.attrs, after);
    AfterAttrs(IsContainer(types, t.id), |t.kids|, contents, tail);
    assert t.attrs + [] == t.attrs;
  }

  // What follows the attributes: the number of items of a container and its contents, or the end mark
  lemma {:induction false} AfterAttrs(container: bool, n: nat, contents: seq<byte>, tail: seq<byte>)
    requires n < 0x1_0000_0000
    ensures ReadAttrs(container, (if container then [ATTR_CONTAINER_ITEMS] + Word(n) + contents else []) + [0] + tail)
      == if container then AttrRead(true, [], n, contents + [0] + tail) else AttrRead(true, [], 0, tail)
  {
    WordRoundTrip(n);
    if container {
      var s := [ATTR_CONTAINER_ITEMS] + Word(n) + contents + [0] + tail;
      assert s[1..5] == Word(n) && s[5..] == contents + [0] + tail;
    } else {
      assert [] + [0] + tail == [0] + tail;
    }
  }

  /** Loading what was saved gives the same items in the same order and leaves the stream at what follows. */
  lemma {:induction false} RoundTrip(types: Types, ts: seq<MapItem>, tail: seq<byte>)
    requires Proper(types, ts)
    ensures LoadItems(types, |ts|, Saved(types, ts) + tail) == ItemRead(true, Reloaded(types, ts), tail)
  {
    hide LoadItem, ItemBytes;
    if ts == [] {
      assert Saved(types, ts) + tail == tail;
    } else {
      var t := ts[0];
      var contents := Saved(types, t.kids);
      var own := ItemBytes(types, t.id, t.attrs, |t.kids|, contents);
      RoundTrip(types, t.kids, [0] + tail);
      assert contents + [0] + tail == contents + ([0] + tail);
      ItemRoundTrip(types, t, contents, Reloaded(types, t.kids), tail);
      RoundTrip(types, ts[1..], own + tail);
      assert Saved(types, ts) + tail == Saved(types, ts[1..]) + (own + tail);
      LoadMore(types, |ts| - 1, 1, Saved(types, ts) + tail);
      LoadOne(types, own + tail);
    }
  }

  lemma {:induction false} LoadOne(types: Types, s: seq<byte>)
    requires LoadItem(types, s).ok
    ensures LoadItems(types, 1, s) == LoadItem(types, s)
  {
    hide LoadItem;
    var i := LoadItem(types, s);
    assert LoadItems(types, 0, i.rest) == ItemRead(true, [], i.rest);
    assert [] + i.items == i.items;
  }

  ghost predicate NoAliases(types: Types, ts: seq<MapItem>)
  {
    ts != [] ==> Created(types, ts[0].id) == ts[0].id && NoAliases(types, ts[0].kids) && NoAliases(types, ts[1..])
  }

  // The very same items come back exactly when none of them is of a type made as another.
  lemma {:induction false} SameItems(types: Types, ts: seq<MapItem>)
    ensures Reloaded(types, ts) == ts <==> NoAliases(types, ts)
  {
    hide Created;
    if ts != [] {
      SameItems(types, ts[0].kids);
      SameItems(types, ts[1..]);
      var r := Reloaded(types, ts);
      assert ts == [ts[0]] + ts[1..];
      assert r[1..] == Reloaded(types, ts[1..]);
    }
  }

  // ---------- types that are gone when the items are loaded ----------

  // Every type of the second table is in the first, and the same.
  ghost predicate Fewer(types': Types, types: Types)
  {
    forall id <- types' :: id in types && types[id] == types'[id]
  }

  ghost predicate AllKnown(types: Types, ts: seq<MapItem>)
  {
    ts != [] ==> ts[0].id in types && AllKnown(types, ts[0].kids) && AllKnown(types, ts[1..])
  }

  lemma {:induction false} SavedAlike(types: Types, types': Types, ts: seq<MapItem>)
    requires Fewer(types', types) && Proper(types, ts) && AllKnown(types', ts)
    ensures Proper(types', ts) && Saved(types', ts) == Saved(types, ts)
  {
    hide ProperAttr, AttrBytes, Half, Word;
    if ts != [] {
      SavedAlike(types, types', ts[0].kids);
      SavedAlike(types, types', ts[1..]);
    }
  }

  lemma {:induction false} AtMost(types: Types, n: nat, s: seq<byte>)
    ensures |LoadItem(types, s).items| <= 1
    ensures |LoadItems(types, n, s).items| <= n
    decreases n
  {
    hide ReadAttrs, Created, Unhalf;
    if n > 0 {
      AtMost(types, n - 1, LoadItem(types, s).rest);
    }
  }

  lemma {:induction false} LoadSplit(types: Types, n: nat, m: nat, s: seq<byte>)
    requires LoadItems(types, n + m, s).ok
    ensures LoadItems(types, n, s).ok && LoadItems(types, m, LoadItems(types, n, s).rest).ok
    decreases n
  {
    hide LoadItem;
    if n > 0 {
      LoadSplit(types, n - 1, m, LoadItem(types, s).rest);
    }
  }

  // Reading one item more
  lemma {:induction false} LastRead(types: Types, n: nat, s: seq<byte>)
    requires LoadItems(types, n + 1, s).ok
    ensures var r := LoadItems(types, n, s); var q := LoadItem(types, r.rest);
      && r.ok && q.ok && |r.items| <= n && |q.items| <= 1 && LoadItems(types, n + 1, s).items == q.items + r.items
  {
    hide LoadItem, LoadItems;
    LoadSplit(types, n, 1, s);
    var r := LoadItems(types, n, s);
    LoadMore(types, n, 1, s);
    LoadOneOk(types, r.rest);
    LoadOne(types, r.rest);
    AtMost(types, n, s);
    AtMost(types, 1, r.rest);
  }

  // What holds of a row holds of its first item, of its contents and of the others.
  lemma {:induction false} Parts(types: Types, types': Types, ts: seq<MapItem>, tail: seq<byte>)
    requires ts != []
    ensures var t := ts[0];
      && (Proper(types, ts) ==>
        ProperItem(types, t.id, t.attrs, |t.kids|) && Proper(types, t.kids) && Proper(types, ts[1..]))
      && (AllKnown(types', ts) <==> t.id in types' && AllKnown(types', t.kids) && AllKnown(types', ts[1..]))
      && Saved(types, ts) + tail ==
        Saved(types, ts[1..]) + (ItemBytes(types, t.id, t.attrs, |t.kids|, Saved(types, t.kids)) + tail)
  {
    hide ItemBytes, ProperItem;
  }

  // Where a type is unknown, what is read is less.
  lemma {:induction false} UnknownIsMissed(types: Types, types': Types, ts: seq<MapItem>, tail: seq<byte>)
    requires Fewer(types', types) && Proper(types, ts) && ts != [] && !AllKnown(types', ts)
    ensures var r := LoadItems(types', |ts|, Saved(types, ts) + tail); r.ok ==> r.items != Reloaded(types', ts)
    decreases ts
  {
    hide LoadItem, LoadItems, ItemBytes, Fewer, Proper, ProperItem, AllKnown, Saved, Reloaded;
    var t, n := ts[0], |ts| - 1;
    var own := ItemBytes(types, t.id, t.attrs, |t.kids|, Saved(types, t.kids));
    var s := Saved(types, ts) + tail;
    Parts(types, types', ts, tail);
    if LoadItems(types', n + 1, s).ok {
      var r := LoadItems(types', n, s);
      LastRead(types', n, s);
      if AllKnown(types', ts[1..]) {
        SavedAlike(types, types', ts[1..]);
        RoundTrip(types', ts[1..], own + tail);
        OneIsMissed(types, types', t, tail);
      } else {
        NoneKnown(types');
        UnknownIsMissed(types, types', ts[1..], own + tail);
      }
      ReloadedLength(types', ts[1..]);
      SplitEqual(types', ts, LoadItem(types', r.rest).items, r.items);
    }
  }

  lemma {:induction false} NoneKnown(types: Types)
    ensures AllKnown(types, [])
  {
  }

  lemma {:induction false} LoadOneOk(types: Types, s: seq<byte>)
    requires LoadItems(types, 1, s).ok
    ensures LoadItem(types, s).ok
  {
    hide LoadItem;
  }

  lemma {:induction false} ReloadedLength(types: Types, ts: seq<MapItem>)
    ensures |Reloaded(types, ts)| == |ts|
  {
    if ts != [] {
      ReloadedLength(types, ts[1..]);
    }
  }

  lemma {:induction false} SplitEqual(types: Types, ts: seq<MapItem>, first: seq<MapItem>, rest: seq<MapItem>)
    requires ts != [] && |first| <= 1 && |rest| <= |ts| - 1 && |Reloaded(types, ts[1..])| == |ts| - 1
    ensures first + rest == Reloaded(types, ts) ==>
      first == [MapItem(Created(types, ts[0].id), ts[0].attrs, Reloaded(types, ts[0].kids))]
      && rest == Reloaded(types, ts[1..])
  {
    hide Created;
    if first + rest == Reloaded(types, ts) {
      assert |first| == 1 && (first + rest)[0] == first[0] && (first + rest)[1..] == rest;
      assert Reloaded(types, ts)[1..] == Reloaded(types, ts[1..]);
    }
  }

  lemma {:induction false} OneIsMissed(types: Types, types': Types, t: MapItem, tail: seq<byte>)
    requires Fewer(types', types) && ProperItem(types, t.id, t.attrs, |t.kids|) && Proper(types, t.kids)
    requires t.id in types' ==> !AllKnown(types', t.kids)
    ensures var r := LoadItem(types', ItemBytes(types, t.id, t.attrs, |t.kids|, Saved(types, t.kids)) + tail);
      r.ok ==> r.items != [MapItem(Created(types', t.id), t.attrs, Reloaded(types', t.kids))]
    decreases t
  {
    hide ProperAttr, LoadItems, ReadAttrs, AttrBytes, Half, Unhalf, Word, Created, Saved;
    var contents, container := Saved(types, t.kids), IsContainer(types, t.id);
    var s := ItemBytes(types, t.id, t.attrs, |t.kids|, contents) + tail;
    var after := (if container then [ATTR_CONTAINER_ITEMS] + Word(|t.kids|) + contents else []) + [0] + tail;
    assert s == Half(t.id) + (AttrBytes(t.attrs) + after);
    HalfRoundTrip(t.id, AttrBytes(t.attrs) + after);
    if t.id in types' {
      assert t.kids != [];
      AttrsRoundTrip(container, t.attrs, after);
      AfterAttrs(container, |t.kids|, contents, tail);
      assert contents + [0] + tail == contents + ([0] + tail);
      UnknownIsMissed(types, types', t.kids, [0] + tail);
    }
  }

  /** What was saved comes back, and the stream is left at what follows, if and only if every type, at any depth, is
      still known when it is loaded. */
  lemma {:induction false} RoundTripExactly(types: Types, types': Types, ts: seq<MapItem>, tail: seq<byte>)
    requires Fewer(types', types) && Proper(types, ts)
    ensures LoadItems(types', |ts|, Saved(types, ts) + tail) == ItemRead(true, Reloaded(types', ts), tail)
      <==> AllKnown(types', ts)
  {
    hide LoadItems, Fewer, Proper;
    if AllKnown(types', ts) {
      SavedAlike(types, types', ts);
      RoundTrip(types', ts, tail);
    } else {
      UnknownIsMissed(types, types', ts, tail);
    }
  }

  /** Of an item of an unknown type only the type is read: the item that was saved behind it is lost as well. */
  lemma {:induction false} UnknownTakesOthers()
    ensures var types := map[100 := ItemType(false, false), 200 := ItemType(false, false)];
      var ts := [MapItem(100, [], []), MapItem(200, [], [])];
      && Proper(types, ts)
      && LoadItems(map[100 := ItemType(false, false)], 2, Saved(types, ts)) == ItemRead(true, [], [0, 0])
  {
    var types := map[100 := ItemType(false, false), 200 := ItemType(false, false)];
    var b := MapItem(200, [], []);
    assert Saved(types, [b]) == [200, 0, 0] by { assert Saved(types, []) == []; }
    assert Saved(types, [MapItem(100, [], []), b]) == [200, 0, 0, 100, 0, 0] by {
      assert [MapItem(100, [], []), b][1..] == [b];
    }
    ReadOutOfStep();
  }

  lemma {:induction false} ReadOutOfStep()
    ensures LoadItems(map[100 := ItemType(false, false)], 2, [200, 0, 0, 100, 0, 0]) == ItemRead(true, [], [0, 0])
  {
    var types := map[100 := ItemType(false, false)];
    var s: seq<byte> := [200, 0, 0, 100, 0, 0];
    assert LoadItem(types, s) == ItemRead(true, [], [0, 100, 0, 0]);
    assert LoadItem(types, [0, 100, 0, 0]) == ItemRead(true, [], [0, 0]);
    assert LoadItems(types, 0, [0, 0]) == ItemRead(true, [], [0, 0]);
  }

  // ---------- the streams ----------

  /** Writes an item with everything in it. */
  method SaveItem(stream: PropWriteStream, types: Types, item: MapItem)
    modifies stream
    ensures stream.buffer == old(stream.buffer)
      + ItemBytes(types, item.id, item.attrs, |item.kids|, Saved(types, item.kids))
    decreases item
  {
    hide Half, ItemBytes, Saved, AttrBytes, Word;
    stream.Write(Half(item.id % 0x1_0000));
    NoBytes(types);
    WriteAttrs(stream, item.attrs);
    ghost var mid, more := stream.buffer, [];
    assert mid == old(stream.buffer) + Half(item.id % 0x1_0000) + AttrBytes(item.attrs);
    if IsContainer(types, item.id) {
      stream.Write([ATTR_CONTAINER_ITEMS]);
      stream.Write(Word(|item.kids| % 0x1_0000_0000));
      var it := |item.kids|;
      ghost var inside := stream.buffer;
      assert item.kids[it..] == [];
      while it > 0
        invariant 0 <= it <= |item.kids|
        invariant stream.buffer == inside + Saved(types, item.kids[it..])
      {
        it := it - 1;
        SavedInFront(types, item.kids, it);
        SaveItem(stream, types, item.kids[it]);
      }
      assert item.kids[0..] == item.kids;
      more := [ATTR_CONTAINER_ITEMS] + Word(|item.kids| % 0x1_0000_0000) + Saved(types, item.kids);
      assert stream.buffer == mid + more;
    }
    stream.Write([0]);
    assert stream.buffer == old(stream.buffer) + (Half(item.id % 0x1_0000) + AttrBytes(item.attrs) + more + [0]);
    AllBytes(types, item.id, item.attrs, |item.kids|, Saved(types, item.kids));
  }

  method WriteAttrs(stream: PropWriteStream, attrs: seq<Attr>)
    modifies stream
    ensures stream.buffer == old(stream.buffer) + AttrBytes(attrs)
  {
    assert attrs[0..] == attrs;
    for i := 0 to |attrs|
      invariant stream.buffer + AttrBytes(attrs[i..]) == old(stream.buffer) + AttrBytes(attrs)
    {
      assert attrs[i..][1..] == attrs[i + 1..];
      stream.Write([attrs[i].tag]);
      stream.Write(attrs[i].data);
    }
  }

  lemma {:induction false} NoBytes(types: Types)
    ensures AttrBytes([]) == [] && Saved(types, []) == []
  {
  }

  lemma {:induction false} AllBytes(types: Types, id: int, attrs: seq<Attr>, n: nat, contents: seq<byte>)
    ensures ItemBytes(types, id, attrs, n, contents) == Half(id % 0x1_0000) + AttrBytes(attrs)
      + (if IsContainer(types, id) then [ATTR_CONTAINER_ITEMS] + Word(n % 0x1_0000_0000) + contents else []) + [0]
  {
  }

  lemma {:induction false} SavedInFront(types: Types, ts: seq<MapItem>, i: nat)
    requires i < |ts|
    ensures Saved(types, ts[i..]) == Saved(types, ts[i + 1..])
      + ItemBytes(types, ts[i].id, ts[i].attrs, |ts[i].kids|, Saved(types, ts[i].kids))
  {
    hide ItemBytes;
    assert ts[i..][1..] == ts[i + 1..];
  }

  /** The bytes of one attribute; a text begins with its length. */
  method ReadAttr(stream: PropStream, tag: byte) returns (ok: bool, data: seq<byte>)
    requires stream.Valid()
    modifies stream
    ensures stream.Valid() && |stream.Rest()| <= |old(stream.Rest())|
    ensures var s := old(stream.Rest()); var n := AttrSize(tag, s);
      ok == n.Some? && (ok ==> data == s[..n.value] && stream.Rest() == s[n.value..])
  {
    data := [];
    if tag in {6, 7, 19, 24, 25, 26, 34} {
      var length, text;
      ghost var s := stream.Rest();
      ok, length := stream.Read(2);
      if !ok {
        return;
      }
      ok, text := stream.Read(Unhalf(length));
      data := length + text;
      assert ok ==> data == s[..2 + Unhalf(length)];
    } else if tag in {12, 14, 15, 17, 32, 33} {
      ok, data := stream.Read(1);
    } else if tag in {4, 5, 10, 22} {
      ok, data := stream.Read(2);
    } else if tag in {16, 18, 20, 21, 27, 28, 29, 30, 31, 35} {
      ok, data := stream.Read(4);
    } else if tag == 8 {
      ok, data := stream.Read(5);
    } else {
      ok := false;
    }
  }

  // One step of reading attributes
  lemma {:induction false} ReadAttrsStep(container: bool, s: seq<byte>)
    ensures s == [] || s[0] == 0 ==> ReadAttrs(container, s) == AttrRead(true, [], 0, if s == [] then [] else s[1..])
    ensures s != [] && s[0] == ATTR_CONTAINER_ITEMS && container ==>
      ReadAttrs(container, s) == if |s[1..]| < 4 then AttrRead(false, [], 0, s[1..])
        else AttrRead(true, [], Unword(s[1..][..4]), s[1..][4..])
    ensures s != [] && s[0] != 0 && !(s[0] == ATTR_CONTAINER_ITEMS && container) ==>
      var n := AttrSize(s[0], s[1..]);
      if n.None? then !ReadAttrs(container, s).ok
      else
        var q := ReadAttrs(container, s[1..][n.value..]);
        ReadAttrs(container, s) == Behind([Attr(s[0], s[1..][..n.value])], q)
  {
    hide AttrSize, Unword;
    if |s| >= 5 {
      assert s[1..][..4] == s[1..5] && s[1..][4..] == s[5..];
    }
  }

  lemma {:induction false} BehindMore(attrs: seq<Attr>, a: Attr, q: AttrRead)
    ensures Behind(attrs, Behind([a], q)) == Behind(attrs + [a], q)
  {
    assert attrs + ([a] + q.attrs) == (attrs + [a]) + q.attrs;
  }

  lemma {:induction false} BehindParts(attrs: seq<Attr>, q: AttrRead)
    ensures Behind(attrs, q).ok == q.ok && Behind(attrs, q).items == q.items && Behind(attrs, q).rest == q.rest
    ensures q.attrs == [] ==> Behind(attrs, q).attrs == attrs
    ensures attrs == [] ==> Behind(attrs, q) == q
  {
    assert attrs + [] == attrs && [] + q.attrs == q.attrs;
  }

  /** All attributes of an item; those of a container end with the number of items in it. */
  method UnserializeAttr(stream: PropStream, container: bool)
    returns (ok: bool, attrs: seq<Attr>, serializationCount: uint32)
    requires stream.Valid()
    modifies stream
    ensures stream.Valid() && |stream.Rest()| <= |old(stream.Rest())|
    ensures var r := ReadAttrs(container, old(stream.Rest()));
      ok == r.ok && (ok ==> attrs == r.attrs && serializationCount == r.items && stream.Rest() == r.rest)
  {
    hide AttrSize, ReadAttrs, Behind, Unword;
    ghost var r := ReadAttrs(container, stream.Rest());
    attrs, serializationCount := [], 0;
    BehindParts(attrs, r);
    while true
      invariant stream.Valid() && |stream.Rest()| <= |old(stream.Rest())|
      invariant r == Behind(attrs, ReadAttrs(container, stream.Rest()))
      decreases |stream.Rest()|
    {
      ReadAttrsStep(container, stream.Rest());
      BehindParts(attrs, ReadAttrs(container, stream.Rest()));
      var more, tag := stream.Read(1);
      if !more || tag[0] == 0 {
        return true, attrs, 0;
      }
      if container && tag[0] == ATTR_CONTAINER_ITEMS {
        var count;
        ok, count := stream.Read(4);
        if ok {
          serializationCount := Unword(count);
        }
        return;
      }
      var data;
      ok, data := ReadAttr(stream, tag[0]);
      if !ok {
        return;
      }
      BehindMore(attrs, Attr(tag[0], data), ReadAttrs(container, stream.Rest()));
      attrs := attrs + [Attr(tag[0], data)];
    }
  }

  /** Reads one item; of an unknown type nothing but the type is read, and no item made. */
  method LoadOneItem(stream: PropStream, types: Types) returns (ok: bool, items: seq<MapItem>)
    requires stream.Valid()
    modifies stream
    ensures stream.Valid() && |stream.Rest()| <= |old(stream.Rest())|
    ensures var r := LoadItem(types, old(stream.Rest()));
      ok == r.ok && (ok ==> items == r.items && stream.Rest() == r.rest)
    decreases |stream.Rest()|, 0
  {
    items := [];
    var two;
    ghost var s := stream.Rest();
    ok, two := stream.Read(2);
    if !ok {
      return;
    }
    var id := Unhalf(two);
    if id !in types {
      return true, [];
    }
    var attrs, count;
    ok, attrs, count := UnserializeAttr(stream, types[id].container);
    if !ok {
      return;
    }
    var kids := [];
    if types[id].container {
      ok, kids := LoadContainer(stream, types, count);
      if !ok {
        return;
      }
    }
    items := [MapItem(Created(types, id), attrs, kids)];
  }

  /** Reads the contents of a container and the mark that ends it. */
  method LoadContainer(stream: PropStream, types: Types, serializationCount: nat)
    returns (ok: bool, itemlist: seq<MapItem>)
    requires stream.Valid()
    modifies stream
    ensures stream.Valid() && |stream.Rest()| <= |old(stream.Rest())|
    ensures var r := LoadItems(types, serializationCount, old(stream.Rest()));
      ok == (r.ok && r.rest != [] && r.rest[0] == 0) && (ok ==> itemlist == r.items && stream.Rest() == r.rest[1..])
    decreases |stream.Rest()|, serializationCount + 1
  {
    hide LoadItem;
    ghost var r := LoadItems(types, serializationCount, stream.Rest());
    itemlist := [];
    var n := serializationCount;
    while n > 0
      invariant stream.Valid() && |stream.Rest()| <= |old(stream.Rest())| && 0 <= n <= serializationCount
      invariant n < serializationCount ==> |stream.Rest()| < |old(stream.Rest())|
      invariant var q := LoadItems(types, n, stream.Rest());
        q.ok == r.ok && (r.ok ==> r == q.(items := q.items + itemlist))
    {
      var items;
      ok, items := LoadOneItem(stream, types);
      if !ok {
        return;
      }
      itemlist := items + itemlist;
      n := n - 1;
    }
    var endAttr;
    ok, endAttr := stream.Read(1);
    if !ok || endAttr[0] != 0 {
      return false, itemlist;
    }
  }
}
