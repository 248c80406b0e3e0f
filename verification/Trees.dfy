/**
  Finite trees of values and the two ways of walking them: by generations, with a queue, and
  depth first.  Several parts of the server walk nested containers with a queue.
 */
module Trees {

  datatype Tree<T> = Node(val: T, kids: seq<Tree<T>>)

  function Size<T>(ts: seq<Tree<T>>): nat
  {
    if ts == [] then 0 else 1 + Size(ts[0].kids) + Size(ts[1..])
  }

  // Depth first: every tree as its root followed by everything below it.
  function Preorder<T>(ts: seq<Tree<T>>): seq<T>
  {
    if ts == [] then [] else [ts[0].val] + Preorder(ts[0].kids) + Preorder(ts[1..])
  }

  // Breadth first: take the node at the front, put its children at the back.
  function Bfs<T>(ts: seq<Tree<T>>): seq<T>
    decreases Size(ts)
  {
    if ts == [] then [] else
      SizeConcat(ts[1..], ts[0].kids);
      [ts[0].val] + Bfs(ts[1..] + ts[0].kids)
  }

  function Vals<T>(ts: seq<Tree<T>>): seq<T>
  {
    seq(|ts|, i requires 0 <= i < |ts| => ts[i].val)
  }

  // The next generation
  function Kids<T>(ts: seq<Tree<T>>): seq<Tree<T>>
  {
    if ts == [] then [] else ts[0].kids + Kids(ts[1..])
  }

  lemma {:induction false} SizeConcat<T>(a: seq<Tree<T>>, b: seq<Tree<T>>)
    ensures Size(a + b) == Size(a) + Size(b)
  {
    if a == [] {
      assert a + b == b;
    } else {
      assert (a + b)[1..] == a[1..] + b;
      SizeConcat(a[1..], b);
    }
  }

  lemma {:induction false} PreorderConcat<T>(a: seq<Tree<T>>, b: seq<Tree<T>>)
    ensures Preorder(a + b) == Preorder(a) + Preorder(b)
  {
    if a == [] {
      assert a + b == b;
    } else {
      assert (a + b)[1..] == a[1..] + b;
      PreorderConcat(a[1..], b);
    }
  }

  lemma {:induction false} KidsConcat<T>(a: seq<Tree<T>>, b: seq<Tree<T>>)
    ensures Kids(a + b) == Kids(a) + Kids(b)
  {
    if a == [] {
      assert a + b == b;
    } else {
      assert (a + b)[1..] == a[1..] + b;
      KidsConcat(a[1..], b);
    }
  }

  lemma {:induction false} BfsFirst<T>(t: Tree<T>, rest: seq<Tree<T>>)
    ensures Bfs([t] + rest) == [t.val] + Bfs(rest + t.kids)
    ensures Preorder([t] + rest) == [t.val] + Preorder(t.kids) + Preorder(rest)
    ensures Size([t] + rest) == 1 + Size(t.kids) + Size(rest)
    ensures Vals([t] + rest) == [t.val] + Vals(rest) && Kids([t] + rest) == t.kids + Kids(rest)
  {
    assert ([t] + rest)[1..] == rest;
  }

  lemma {:induction false} NoTrees<T>()
    ensures Bfs<T>([]) == [] && Preorder<T>([]) == [] && Size<T>([]) == 0 && Vals<T>([]) == [] && Kids<T>([]) == []
  {
  }

  lemma {:induction false} BfsPrefix<T>(a: seq<Tree<T>>, b: seq<Tree<T>>)
    ensures Bfs(a + b) == Vals(a) + Bfs(b + Kids(a))
  {
    hide Bfs, Vals, Kids;
    NoTrees<T>();
    if a == [] {
      assert a + b == b && b + [] == b && [] + Bfs(b) == Bfs(b);
    } else {
      var t, rest := a[0], a[1..];
      assert a == [t] + rest && a + b == [t] + (rest + b);
      BfsFirst(t, rest);
      BfsFirst(t, rest + b);
      assert rest + b + t.kids == rest + (b + t.kids);
      BfsPrefix(rest, b + t.kids);
      assert b + t.kids + Kids(rest) == b + (t.kids + Kids(rest));
      assert [t.val] + (Vals(rest) + Bfs(b + Kids(a))) == [t.val] + Vals(rest) + Bfs(b + Kids(a));
    }
  }

  // The queue visits generation after generation.
  lemma {:induction false} BfsByGenerations<T>(ts: seq<Tree<T>>)
    ensures Bfs(ts) == Vals(ts) + Bfs(Kids(ts))
  {
    BfsPrefix(ts, []);
    assert ts + [] == ts && [] + Kids(ts) == Kids(ts);
  }

  // The queue visits every node exactly as often as it occurs.
  lemma {:induction false} BfsVisitsAll<T>(ts: seq<Tree<T>>)
    ensures multiset(Bfs(ts)) == multiset(Preorder(ts))
    ensures |Bfs(ts)| == Size(ts)
    decreases Size(ts)
  {
    hide Bfs, Preorder, Size;
    NoTrees<T>();
    if ts != [] {
      var t, rest := ts[0], ts[1..];
      assert ts == [t] + rest;
      BfsFirst(t, rest);
      SizeConcat(rest, t.kids);
      PreorderConcat(rest, t.kids);
      BfsVisitsAll(rest + t.kids);
    }
  }
}
