/**
  A player's items are stored as rows (parent id, own id, item data).  Saving walks every
  container with a queue; loading goes through the rows by descending id and puts each item
  at the front of its parent.  Loading what was saved gives back the same forest.
 */
module PlayerItems {
  import opened ItemTypes
  import opened Options
  import opened Trees

  datatype Info = Info(itemtype: int, container: bool, count: nat, attributes: seq<nat>)
  datatype Row = Row(pid: int, sid: int, info: Info)

  // One saved item with the id of the slot, chest or box it is in
  datatype Root = Root(pid: int, item: Tree<Info>)

  const FIRST_ID := 101
  const ROOT_PIDS := 100
  const INBOX_LIMIT := 5000

  ghost predicate Proper(ts: seq<Tree<Info>>)
  {
    ts == [] ||
    ((ts[0].val.container || ts[0].kids == []) && Proper(ts[0].kids) && Proper(ts[1..]))
  }

  // ---------- saving ----------

  datatype Block = Block(item: Tree<Info>, id: int)

  function KidRows(kids: seq<Tree<Info>>, pid: int, next: int): seq<Row>
  {
    if kids == [] then [] else [Row(pid, next, kids[0].val)] + KidRows(kids[1..], pid, next + 1)
  }

  function Enqueued(kids: seq<Tree<Info>>, next: int): seq<Block>
  {
    if kids == [] then [] else
      (if kids[0].val.container then [Block(kids[0], next)] else []) + Enqueued(kids[1..], next + 1)
  }

  function Pending(queue: seq<Block>): nat
  {
    if queue == [] then 0 else 1 + Size(queue[0].item.kids) + Pending(queue[1..])
  }

  lemma {:induction false} LoadConcat(a: seq<Block>, b: seq<Block>)
    ensures Pending(a + b) == Pending(a) + Pending(b)
  {
    if a == [] {
      assert a + b == b;
    } else {
      assert (a + b)[1..] == a[1..] + b;
      LoadConcat(a[1..], b);
    }
  }

  lemma {:induction false} EnqueuedLoad(kids: seq<Tree<Info>>, next: int)
    ensures Pending(Enqueued(kids, next)) <= Size(kids)
  {
    if kids != [] {
      EnqueuedLoad(kids[1..], next + 1);
      LoadConcat(if kids[0].val.container then [Block(kids[0], next)] else [], Enqueued(kids[1..], next + 1));
    }
  }

  // The rows of everything below the queued containers
  function Drain(queue: seq<Block>, next: int): seq<Row>
    decreases Pending(queue)
  {
    if queue == [] then [] else
      var kids := queue[0].item.kids;
      EnqueuedLoad(kids, next);
      LoadConcat(queue[1..], Enqueued(kids, next));
      KidRows(kids, queue[0].id, next) + Drain(queue[1..] + Enqueued(kids, next), next + |kids|)
  }

  function RootRows(items: seq<Root>, next: int): seq<Row>
  {
    if items == [] then [] else [Row(items[0].pid, next, items[0].item.val)] + RootRows(items[1..], next + 1)
  }

  function Items(items: seq<Root>): seq<Tree<Info>>
  {
    if items == [] then [] else [items[0].item] + Items(items[1..])
  }

  function SavedRows(items: seq<Root>): seq<Row>
  {
    RootRows(items, FIRST_ID) + Drain(Enqueued(Items(items), FIRST_ID), FIRST_ID + |items|)
  }

  lemma {:induction false} DrainStep(queue: seq<Block>, next: int)
    requires queue != []
    ensures var kids, rest := queue[0].item.kids, queue[1..];
      && Drain(queue, next) == KidRows(kids, queue[0].id, next) + Drain(rest + Enqueued(kids, next), next + |kids|)
      && Pending(rest + Enqueued(kids, next)) < Pending(queue)
  {
    EnqueuedLoad(queue[0].item.kids, next);
    LoadConcat(queue[1..], Enqueued(queue[0].item.kids, next));
  }

  function InQueue(t: Tree<Info>, id: int): seq<Block>
  {
    if t.val.container then [Block(t, id)] else []
  }

  // What is done and what is still to come, before and after one item
  lemma {:induction false} KidStep(rows: seq<Row>, queue: seq<Block>, kids: seq<Tree<Info>>, i: nat, pid: int,
                                   next: int)
    requires i < |kids|
    ensures rows + KidRows(kids[i..], pid, next) ==
      rows + [Row(pid, next, kids[i].val)] + KidRows(kids[i + 1..], pid, next + 1)
    ensures queue + Enqueued(kids[i..], next) ==
      (if kids[i].val.container then queue + [Block(kids[i], next)] else queue) + Enqueued(kids[i + 1..], next + 1)
  {
    assert kids[i..][1..] == kids[i + 1..];
  }

  lemma {:induction false} RootStep(rows: seq<Row>, queue: seq<Block>, items: seq<Root>, i: nat, next: int)
    requires i < |items|
    ensures rows + RootRows(items[i..], next) ==
      rows + [Row(items[i].pid, next, items[i].item.val)] + RootRows(items[i + 1..], next + 1)
    ensures queue + Enqueued(Items(items[i..]), next) ==
      (if items[i].item.val.container then queue + [Block(items[i].item, next)] else queue)
        + Enqueued(Items(items[i + 1..]), next + 1)
  {
    assert items[i..][1..] == items[i + 1..];
    assert Items(items[i..])[1..] == Items(items[i + 1..]);
  }

  lemma {:induction false} NothingMore(rows: seq<Row>, queue: seq<Block>, pid: int, next: int)
    ensures rows + KidRows([], pid, next) == rows + RootRows([], next) == rows + Drain([], next) == rows
    ensures queue + Enqueued([], next) == queue + Enqueued(Items([]), next) == queue
  {
  }

  /** The items of one container */
  method SaveKids(kids: seq<Tree<Info>>, parentId: int, before: seq<Row>, tail: seq<Block>, lastId: int)
    returns (rows: seq<Row>, queue: seq<Block>, runningId: int)
    ensures rows == before + KidRows(kids, parentId, lastId + 1) && queue == tail + Enqueued(kids, lastId + 1)
    ensures runningId == lastId + |kids|
  {
    hide KidRows, Enqueued;
    var first := lastId + 1;
    rows, queue, runningId := before, tail, lastId;
    assert kids[0..] == kids;
    for i := 0 to |kids|
      invariant runningId == lastId + i
      invariant rows + KidRows(kids[i..], parentId, first + i) == before + KidRows(kids, parentId, first)
      invariant queue + Enqueued(kids[i..], first + i) == tail + Enqueued(kids, first)
    {
      KidStep(rows, queue, kids, i, parentId, first + i);
      runningId := runningId + 1;
      if kids[i].val.container {
        queue := queue + [Block(kids[i], runningId)];
      }
      rows := rows + [Row(parentId, runningId, kids[i].val)];
    }
    assert kids[|kids|..] == [];
    NothingMore(rows, queue, parentId, first + |kids|);
  }

  method SaveItems(itemList: seq<Root>) returns (rows: seq<Row>)
    ensures rows == SavedRows(itemList)
  {
    hide KidRows, Enqueued, RootRows, Items, Drain, Pending;
    rows := [];
    var queue: seq<Block>, runningId := [], FIRST_ID - 1;
    assert itemList[0..] == itemList;
    for i := 0 to |itemList|
      invariant runningId == FIRST_ID - 1 + i
      invariant rows + RootRows(itemList[i..], FIRST_ID + i) == RootRows(itemList, FIRST_ID)
      invariant queue + Enqueued(Items(itemList[i..]), FIRST_ID + i) == Enqueued(Items(itemList), FIRST_ID)
    {
      var item := itemList[i].item;
      RootStep(rows, queue, itemList, i, FIRST_ID + i);
      runningId := runningId + 1;
      rows := rows + [Row(itemList[i].pid, runningId, item.val)];
      if item.val.container {
        queue := queue + [Block(item, runningId)];
      }
    }
    assert itemList[|itemList|..] == [];
    NothingMore(rows, queue, 0, FIRST_ID + |itemList|);
    while queue != []
      invariant rows + Drain(queue, runningId + 1) == SavedRows(itemList)
      decreases Pending(queue)
    {
      DrainStep(queue, runningId + 1);
      var container, parentId := queue[0].item, queue[0].id;
      rows, queue, runningId := SaveKids(container.kids, parentId, rows, queue[1..], runningId);
    }
    NothingMore(rows, queue, 0, runningId + 1);
  }

  lemma {:induction false} NothingDrained(next: int)
    ensures Drain([], next) == []
  {
  }

  // ---------- what the rows say ----------

  // Ids are given out in order, and every parent has a smaller one.
  ghost predicate Numbered(rows: seq<Row>)
  {
    forall i | 0 <= i < |rows| :: rows[i].sid == FIRST_ID + i && rows[i].pid < rows[i].sid
  }

  // The ids of the items directly inside pid, in order
  function Children(rows: seq<Row>, pid: int): seq<int>
  {
    if rows == [] then [] else (if rows[0].pid == pid then [rows[0].sid] else []) + Children(rows[1..], pid)
  }

  lemma {:induction false} FirstChild(r: Row, rest: seq<Row>, pid: int)
    ensures Children([r] + rest, pid) == if r.pid == pid then [r.sid] + Children(rest, pid) else Children(rest, pid)
  {
    assert ([r] + rest)[1..] == rest;
  }

  lemma {:induction false} NoChild(pid: int)
    ensures Children([], pid) == []
  {
  }

  lemma {:induction false} ChildrenConcat(a: seq<Row>, b: seq<Row>, pid: int)
    ensures Children(a + b, pid) == Children(a, pid) + Children(b, pid)
  {
    hide Children;
    if a == [] {
      NoChild(pid);
      assert a + b == b && [] + Children(b, pid) == Children(b, pid);
    } else {
      var r, rest := a[0], a[1..];
      assert a == [r] + rest && a + b == [r] + (rest + b);
      FirstChild(r, rest, pid);
      FirstChild(r, rest + b, pid);
      ChildrenConcat(rest, b, pid);
    }
  }

  lemma {:induction false} ChildrenAre(rows: seq<Row>, pid: int)
    ensures forall s <- Children(rows, pid) :: exists r <- rows :: r.sid == s && r.pid == pid
    ensures forall r <- rows :: r.pid == pid ==> r.sid in Children(rows, pid)
  {
    if rows != [] {
      ChildrenAre(rows[1..], pid);
      assert forall r <- rows :: r == rows[0] || r in rows[1..];
      assert rows[0] in rows && forall r <- rows[1..] :: r in rows;
    }
  }

  // The children of an item have larger ids, all of them taken.
  ghost predicate ChildIds(rows: seq<Row>, pid: int)
    requires Numbered(rows)
    ensures ChildIds(rows, pid)
  {
    ChildrenAre(rows, pid);
    assert forall i | 0 <= i < |Children(rows, pid)| :: Children(rows, pid)[i] in Children(rows, pid);
    forall i | 0 <= i < |Children(rows, pid)| ::
      pid < Children(rows, pid)[i] && FIRST_ID <= Children(rows, pid)[i] < FIRST_ID + |rows|
  }

  // The item with id sid and everything the rows put below it
  function Rebuilt(rows: seq<Row>, sid: int): Tree<Info>
    requires Numbered(rows) && FIRST_ID <= sid < FIRST_ID + |rows|
    decreases FIRST_ID + |rows| - sid, 1, 0
  {
    assert ChildIds(rows, sid);
    Node(rows[sid - FIRST_ID].info, AllRebuilt(rows, Children(rows, sid), sid))
  }

  function AllRebuilt(rows: seq<Row>, sids: seq<int>, above: int): seq<Tree<Info>>
    requires Numbered(rows) && forall i | 0 <= i < |sids| :: above < sids[i] && FIRST_ID <= sids[i] < FIRST_ID + |rows|
    decreases FIRST_ID + |rows| - above, 0, |sids|
  {
    if sids == [] then [] else [Rebuilt(rows, sids[0])] + AllRebuilt(rows, sids[1..], above)
  }

  // ---------- saving spells the forest ----------

  lemma {:induction false} KidRowsAre(kids: seq<Tree<Info>>, pid: int, next: int)
    ensures |KidRows(kids, pid, next)| == |kids|
    ensures forall i | 0 <= i < |kids| :: KidRows(kids, pid, next)[i] == Row(pid, next + i, kids[i].val)
  {
    if kids != [] {
      KidRowsAre(kids[1..], pid, next + 1);
    }
  }

  lemma {:induction false} EnqueuedAre(kids: seq<Tree<Info>>, next: int)
    ensures forall b <- Enqueued(kids, next) ::
      next <= b.id < next + |kids| && kids[b.id - next] == b.item && b.item.val.container
    ensures forall i | 0 <= i < |kids| && kids[i].val.container :: Block(kids[i], next + i) in Enqueued(kids, next)
    ensures DistinctIds(Enqueued(kids, next))
  {
    EnqueuedIds(kids, next);
    AllEnqueued(kids, next);
    EnqueuedOnce(kids, next);
  }

  lemma {:induction false} EnqueuedIds(kids: seq<Tree<Info>>, next: int)
    ensures forall b <- Enqueued(kids, next) ::
      next <= b.id < next + |kids| && kids[b.id - next] == b.item && b.item.val.container
  {
    if kids != [] {
      var first, rest := kids[0], kids[1..];
      EnqueuedIds(rest, next + 1);
      assert Enqueued(kids, next) == InQueue(first, next) + Enqueued(rest, next + 1);
      hide Enqueued;
      forall b <- Enqueued(kids, next)
        ensures next <= b.id < next + |kids| && kids[b.id - next] == b.item && b.item.val.container
      {
        if b in Enqueued(rest, next + 1) {
          assert kids[b.id - next] == rest[b.id - (next + 1)];
        }
      }
    }
  }

  lemma {:induction false} AllEnqueued(kids: seq<Tree<Info>>, next: int)
    ensures forall i | 0 <= i < |kids| && kids[i].val.container :: Block(kids[i], next + i) in Enqueued(kids, next)
  {
    if kids != [] {
      AllEnqueued(kids[1..], next + 1);
      forall i | 0 <= i < |kids| && kids[i].val.container
        ensures Block(kids[i], next + i) in Enqueued(kids, next)
      {
        if i > 0 {
          assert kids[1..][i - 1] == kids[i] && Block(kids[i], next + 1 + (i - 1)) in Enqueued(kids[1..], next + 1);
        }
      }
    }
  }

  lemma {:induction false} EnqueuedOnce(kids: seq<Tree<Info>>, next: int)
    ensures DistinctIds(Enqueued(kids, next))
  {
    if kids != [] {
      var rest := Enqueued(kids[1..], next + 1);
      EnqueuedOnce(kids[1..], next + 1);
      EnqueuedIds(kids[1..], next + 1);
      assert forall i | 0 <= i < |rest| :: rest[i] in rest;
    }
  }

  ghost predicate DistinctIds(queue: seq<Block>)
  {
    forall i, j | 0 <= i < j < |queue| :: queue[i].id != queue[j].id
  }

  ghost predicate QueueOk(queue: seq<Block>, next: int)
  {
    DistinctIds(queue) && forall b <- queue :: FIRST_ID <= b.id < next
  }

  lemma {:induction false} NextQueueOk(queue: seq<Block>, next: int)
    requires queue != [] && QueueOk(queue, next) && next >= FIRST_ID
    ensures QueueOk(queue[1..] + Enqueued(queue[0].item.kids, next), next + |queue[0].item.kids|)
    ensures forall b <- queue[1..] + Enqueued(queue[0].item.kids, next) :: b.id != queue[0].id
  {
    EnqueuedAre(queue[0].item.kids, next);
  }

  // Draining numbers its rows on, and only puts items into queued containers and new ones.
  lemma {:induction false} DrainAre(queue: seq<Block>, next: int)
    requires QueueOk(queue, next) && next >= FIRST_ID
    ensures forall i | 0 <= i < |Drain(queue, next)| ::
      Drain(queue, next)[i].sid == next + i && Drain(queue, next)[i].pid < next + i
    ensures forall i | 0 <= i < |Drain(queue, next)| ::
      Drain(queue, next)[i].pid >= next || IdIn(queue, Drain(queue, next)[i].pid)
    decreases Pending(queue)
  {
    hide KidRows, Enqueued, Drain, DistinctIds;
    NothingDrained(next);
    if queue != [] {
      var kids, pid := queue[0].item.kids, queue[0].id;
      var queue' := queue[1..] + Enqueued(kids, next);
      DrainStep(queue, next);
      NextQueueOk(queue, next);
      KidRowsAre(kids, pid, next);
      EnqueuedAre(kids, next);
      DrainAre(queue', next + |kids|);
      var own, rest := KidRows(kids, pid, next), Drain(queue', next + |kids|);
      forall i | 0 <= i < |own + rest|
        ensures var r: Row := (own + rest)[i];
          r.sid == next + i && r.pid < next + i && (r.pid >= next || IdIn(queue, r.pid))
      {
        if i < |own| {
          assert (own + rest)[i] == own[i] && queue[0] in queue;
        } else {
          var r := rest[i - |own|];
          assert (own + rest)[i] == r;
          if r.pid < next {
            var b :| b in queue' && b.id == r.pid;
            assert b in queue;
          }
        }
      }
    }
  }

  ghost predicate IdIn(queue: seq<Block>, id: int)
  {
    exists b <- queue :: b.id == id
  }

  function Range(from: int, n: nat): seq<int>
    decreases n
  {
    if n == 0 then [] else [from] + Range(from + 1, n - 1)
  }

  lemma {:induction false} KidRowsChildren(kids: seq<Tree<Info>>, pid: int, next: int)
    ensures Children(KidRows(kids, pid, next), pid) == Range(next, |kids|)
  {
    if kids != [] {
      KidRowsChildren(kids[1..], pid, next + 1);
    }
  }

  lemma {:induction false} RangeAre(from: int, n: nat)
    ensures |Range(from, n)| == n && forall i | 0 <= i < n :: Range(from, n)[i] == from + i
    decreases n
  {
    if n > 0 {
      RangeAre(from + 1, n - 1);
    }
  }

  lemma {:induction false} RebuiltRange(rows: seq<Row>, kids: seq<Tree<Info>>, from: int, above: int)
    requires Numbered(rows) && FIRST_ID <= from && above < from && from + |kids| <= FIRST_ID + |rows|
    requires forall i | 0 <= i < |kids| :: Rebuilt(rows, from + i) == kids[i]
    ensures |Range(from, |kids|)| == |kids| && forall i | 0 <= i < |kids| :: Range(from, |kids|)[i] == from + i
    ensures AllRebuilt(rows, Range(from, |kids|), above) == kids
  {
    hide Rebuilt, Numbered;
    RangeAre(from, |kids|);
    if kids != [] {
      RebuiltRange(rows, kids[1..], from + 1, above);
    }
  }

  // The container queued as b is rebuilt with exactly its contents.
  ghost predicate Contains(rows: seq<Row>, b: Block)
  {
    && Numbered(rows) && FIRST_ID <= b.id < FIRST_ID + |rows|
    && ChildIds(rows, b.id)
    && AllRebuilt(rows, Children(rows, b.id), b.id) == b.item.kids
  }

  lemma {:induction false} ProperAt(ts: seq<Tree<Info>>, i: nat)
    requires Proper(ts) && i < |ts|
    ensures Proper(ts[i].kids) && (!ts[i].val.container ==> ts[i].kids == [])
  {
    if i > 0 {
      ProperAt(ts[1..], i - 1);
    }
  }

  lemma {:induction false} NoChildren(rows: seq<Row>, pid: int)
    requires forall i | 0 <= i < |rows| :: rows[i].pid != pid
    ensures Children(rows, pid) == []
  {
    if rows != [] {
      NoChildren(rows[1..], pid);
    }
  }

  // A container whose contents were numbered from `next` on, everything queued behind it being right
  lemma {:induction false} FirstContained(done: seq<Row>, first: Block, queue: seq<Block>, next: int, rows: seq<Row>)
    requires Numbered(rows) && next == FIRST_ID + |done| && FIRST_ID <= first.id < next
    requires Proper(first.item.kids) && Children(done, first.id) == []
    requires QueueOk(queue, next + |first.item.kids|)
    requires rows == done + KidRows(first.item.kids, first.id, next) + Drain(queue, next + |first.item.kids|)
    requires Numbered(done + KidRows(first.item.kids, first.id, next))
    requires forall b <- queue :: b.id != first.id && Contains(rows, b)
    requires forall b <- Enqueued(first.item.kids, next) :: b in queue
    requires forall b <- queue :: b.id < next || b in Enqueued(first.item.kids, next)
    ensures Contains(rows, first)
  {
    hide Drain, KidRows, Enqueued, AllRebuilt, Children, Pending, Proper, Range, DistinctIds;
    var kids, pid, next' := first.item.kids, first.id, next + |first.item.kids|;
    var added, rest := KidRows(kids, pid, next), Drain(queue, next');
    KidRowsAre(kids, pid, next);
    EnqueuedAre(kids, next);
    DrainAre(queue, next');
    ChildrenConcat(done, added, pid);
    ChildrenConcat(done + added, rest, pid);
    KidRowsChildren(kids, pid, next);
    NoChildren(rest, pid);
    assert Children(rows, pid) == Range(next, |kids|);
    forall i | 0 <= i < |kids|
      ensures Rebuilt(rows, next + i) == kids[i]
    {
      KidRebuilt(done + added, kids, next, i, queue, next', rows);
    }
    RebuiltRange(rows, kids, next, pid);
  }

  lemma {:induction false} KidRebuilt(before: seq<Row>, kids: seq<Tree<Info>>, next: int, i: nat, queue: seq<Block>,
                                      next': int, rows: seq<Row>)
    requires i < |kids| && Proper(kids) && Numbered(rows) && Numbered(before) && QueueOk(queue, next')
    requires FIRST_ID <= next && next' == next + |kids| == FIRST_ID + |before|
    requires rows == before + Drain(queue, next') && rows[next + i - FIRST_ID].info == kids[i].val
    requires forall j | 0 <= j < |before| :: before[j].pid < next
    requires forall b <- queue :: Contains(rows, b)
    requires kids[i].val.container ==> Block(kids[i], next + i) in queue
    requires forall b <- queue :: b.id >= next ==> kids[b.id - next].val.container
    ensures Rebuilt(rows, next + i) == kids[i]
  {
    hide Drain, AllRebuilt, Children, Proper, DistinctIds;
    var sid := next + i;
    ProperAt(kids, i);
    if kids[i].val.container {
      assert Contains(rows, Block(kids[i], sid));
    } else {
      DrainAre(queue, next');
      NoChildren(rows, sid);
      NothingRebuilt(rows, sid);
    }
  }

  lemma {:induction false} NothingRebuilt(rows: seq<Row>, above: int)
    requires Numbered(rows)
    ensures AllRebuilt(rows, [], above) == []
  {
  }

  lemma {:induction false} DrainRebuilds(done: seq<Row>, queue: seq<Block>, next: int, rows: seq<Row>)
    requires rows == done + Drain(queue, next) && Numbered(done) && next == FIRST_ID + |done|
    requires QueueOk(queue, next)
    requires forall b <- queue :: Proper(b.item.kids) && Children(done, b.id) == []
    ensures Numbered(rows)
    ensures forall b <- queue :: Contains(rows, b)
    decreases Pending(queue)
  {
    hide Drain, KidRows, Enqueued, Rebuilt, AllRebuilt, Children, Pending, Proper, Range;
    DrainAre(queue, next);
    if queue != [] {
      var kids, pid := queue[0].item.kids, queue[0].id;
      var added, next' := KidRows(kids, pid, next), next + |kids|;
      var queue' := queue[1..] + Enqueued(kids, next);
      DrainStep(queue, next);
      NextQueueOk(queue, next);
      KidRowsAre(kids, pid, next);
      EnqueuedAre(kids, next);
      DrainAre(queue', next');
      forall b | b in queue'
        ensures Proper(b.item.kids) && Children(done + added, b.id) == []
      {
        ChildrenConcat(done, added, b.id);
        NoChildren(added, b.id);
        if b in Enqueued(kids, next) {
          ProperAt(kids, b.id - next);
          NoChildren(done, b.id);
        }
      }
      DrainRebuilds(done + added, queue', next', rows);
      assert rows == done + added + Drain(queue', next');
      FirstContained(done, queue[0], queue', next, rows);
    }
  }

  // The items of one slot, chest or box, in order
  function Chest(items: seq<Root>, pid: int): seq<Tree<Info>>
  {
    if items == [] then [] else (if items[0].pid == pid then [items[0].item] else []) + Chest(items[1..], pid)
  }

  ghost predicate RootPids(items: seq<Root>)
  {
    forall i | 0 <= i < |items| :: 0 <= items[i].pid < ROOT_PIDS
  }

  lemma {:induction false} RootRowsAre(items: seq<Root>, next: int)
    ensures |RootRows(items, next)| == |items| == |Items(items)|
    ensures forall i | 0 <= i < |items| ::
      RootRows(items, next)[i] == Row(items[i].pid, next + i, items[i].item.val) && Items(items)[i] == items[i].item
  {
    if items != [] {
      RootRowsAre(items[1..], next + 1);
    }
  }

  // Every saved root is rebuilt from the rows, whatever its slot.
  lemma {:induction false} RootsRebuilt(items: seq<Root>)
    requires RootPids(items) && Proper(Items(items))
    ensures var rows := SavedRows(items);
      && Numbered(rows) && |rows| >= |items|
      && (forall i | 0 <= i < |items| :: rows[i].pid == items[i].pid && Rebuilt(rows, FIRST_ID + i) == items[i].item)
      && (forall i | |items| <= i < |rows| :: rows[i].pid >= FIRST_ID)
  {
    hide Drain, RootRows, Items, Enqueued, Rebuilt, AllRebuilt, Children, Proper, DistinctIds;
    var rows, done, kids := SavedRows(items), RootRows(items, FIRST_ID), Items(items);
    var queue, next := Enqueued(kids, FIRST_ID), FIRST_ID + |items|;
    RootRowsAre(items, FIRST_ID);
    EnqueuedAre(kids, FIRST_ID);
    assert QueueOk(queue, next);
    forall b | b in queue
      ensures Proper(b.item.kids) && Children(done, b.id) == []
    {
      ProperAt(kids, b.id - FIRST_ID);
      NoChildren(done, b.id);
    }
    DrainAre(queue, next);
    DrainRebuilds(done, queue, next, rows);
    forall i | 0 <= i < |items|
      ensures Rebuilt(rows, FIRST_ID + i) == items[i].item
    {
      KidRebuilt(done, kids, FIRST_ID, i, queue, next, rows);
    }
  }

  lemma {:induction false} ChestRebuilt(rows: seq<Row>, items: seq<Root>, from: nat, pid: int)
    requires Numbered(rows) && from + |items| <= |rows| && pid < FIRST_ID
    requires forall i | 0 <= i < |items| ::
      rows[from + i].pid == items[i].pid && Rebuilt(rows, FIRST_ID + from + i) == items[i].item
    ensures ChestIs(rows, Children(rows[from..from + |items|], pid), items, pid)
  {
    hide Rebuilt, Children, ChestIs;
    if items == [] {
      NoChild(pid);
      assert rows[from..from] == [];
      NothingInChest(rows, pid);
    } else {
      var r, rest := rows[from], rows[from + 1..from + |items|];
      assert rows[from..from + |items|] == [r] + rest && r.sid == FIRST_ID + from;
      FirstChild(r, rest, pid);
      forall i | 0 <= i < |items[1..]|
        ensures rows[from + 1 + i].pid == items[1..][i].pid
        ensures Rebuilt(rows, FIRST_ID + (from + 1) + i) == items[1..][i].item
      {
        assert rows[from + (i + 1)].pid == items[i + 1].pid;
      }
      assert Rebuilt(rows, FIRST_ID + from + 0) == items[0].item;
      ChestRebuilt(rows, items[1..], from + 1, pid);
      FirstInChest(rows, Children(rest, pid), items, r.sid, pid);
    }
  }

  // Of the ids, all above pid, the rows rebuild a chest.
  ghost predicate ChestIs(rows: seq<Row>, sids: seq<int>, items: seq<Root>, pid: int)
    requires Numbered(rows)
  {
    && (forall i | 0 <= i < |sids| :: pid < sids[i] && FIRST_ID <= sids[i] < FIRST_ID + |rows|)
    && AllRebuilt(rows, sids, pid) == Chest(items, pid)
  }

  lemma {:induction false} NothingInChest(rows: seq<Row>, pid: int)
    requires Numbered(rows)
    ensures ChestIs(rows, [], [], pid)
  {
  }

  lemma {:induction false} FirstInChest(rows: seq<Row>, sids: seq<int>, items: seq<Root>, sid: int, pid: int)
    requires Numbered(rows) && items != [] && ChestIs(rows, sids, items[1..], pid)
    requires pid < sid && FIRST_ID <= sid < FIRST_ID + |rows| && Rebuilt(rows, sid) == items[0].item
    ensures ChestIs(rows, if items[0].pid == pid then [sid] + sids else sids, items, pid)
  {
    hide Rebuilt;
    assert ([sid] + sids)[1..] == sids;
  }

  /** The rows of a saved forest spell, chest by chest and in order, exactly the items saved. */
  lemma {:induction false} SavedRowsSpell(items: seq<Root>, pid: int)
    requires RootPids(items) && Proper(Items(items)) && 0 <= pid < ROOT_PIDS
    ensures var rows := SavedRows(items);
      && Numbered(rows) && ChildIds(rows, pid)
      && AllRebuilt(rows, Children(rows, pid), pid) == Chest(items, pid)
  {
    hide SavedRows, Rebuilt, AllRebuilt, Chest, Proper, Items;
    var rows := SavedRows(items);
    RootsRebuilt(items);
    var roots, below := rows[..|items|], rows[|items|..];
    assert rows == roots + below && roots == rows[0..0 + |items|];
    ChildrenConcat(roots, below, pid);
    NoChildren(below, pid);
    ChestRebuilt(rows, items, 0, pid);
    assert Children(rows, pid) == Children(roots, pid);
    assert ChildIds(rows, pid);
  }

  // ---------- making the items again ----------

  // The item that is made for a stored one, or none if its type is unknown
  function Made(types: Types, info: Info): Option<Info>
  {
    if info.itemtype !in types then None
    else Some(info.(itemtype := Created(types, info.itemtype), container := types[info.itemtype].container))
  }

  // The trees as they come back: made again, and without what was in items that are not made or are no containers
  function Reloaded(types: Types, ts: seq<Tree<Info>>): seq<Tree<Info>>
  {
    if ts == [] then [] else
      var info := Made(types, ts[0].val);
      (if info.None? then []
        else [Node(info.value, if info.value.container then Reloaded(types, ts[0].kids) else [])])
          + Reloaded(types, ts[1..])
  }

  // An item of a known type that is made as itself, with the class that it had
  predicate Stays(types: Types, info: Info)
  {
    && info.itemtype in types && types[info.itemtype].container == info.container
    && (types[info.itemtype].special || Alias(info.itemtype) == info.itemtype)
  }

  ghost predicate AllStay(types: Types, ts: seq<Tree<Info>>)
  {
    ts != [] ==> Stays(types, ts[0].val) && AllStay(types, ts[0].kids) && AllStay(types, ts[1..])
  }

  lemma {:induction false} ReloadedShorter(types: Types, ts: seq<Tree<Info>>)
    ensures |Reloaded(types, ts)| <= |ts|
  {
    if ts != [] {
      ReloadedShorter(types, ts[1..]);
    }
  }

  /** The very same trees come back if and only if every item, at any depth, is of a known type that is not made as
      another and is still a container if it was one. */
  lemma {:induction false} SameTrees(types: Types, ts: seq<Tree<Info>>)
    requires Proper(ts)
    ensures Reloaded(types, ts) == ts <==> AllStay(types, ts)
  {
    hide Alias;
    if ts != [] {
      SameTrees(types, ts[0].kids);
      SameTrees(types, ts[1..]);
      ReloadedShorter(types, ts[1..]);
      var r := Reloaded(types, ts);
      assert ts == [ts[0]] + ts[1..];
      if Made(types, ts[0].val).Some? {
        assert r[1..] == Reloaded(types, ts[1..]);
      }
    }
  }

  /** A stealth ring that is worn is stored as the type it has while it is worn, and comes back as the other. */
  lemma {:induction false} WornRing()
    ensures var types := map[2165 := ItemType(false, false), 2202 := ItemType(false, false)];
      Reloaded(types, [Node(Info(2202, false, 1, []), [])]) == [Node(Info(2165, false, 1, []), [])]
  {
  }

  // The rows of which items are made
  function Kept(types: Types, rows: seq<Row>): seq<Row>
  {
    if rows == [] then [] else (if Made(types, rows[0].info).Some? then [rows[0]] else []) + Kept(types, rows[1..])
  }

  lemma {:induction false} KeptAre(types: Types, rows: seq<Row>)
    ensures forall r :: r in Kept(types, rows) <==> r in rows && Made(types, r.info).Some?
  {
    hide Made;
    if rows != [] {
      KeptAre(types, rows[1..]);
      assert forall r :: r in rows <==> r == rows[0] || r in rows[1..];
    }
  }

  lemma {:induction false} AscendingFirst(r: Row, rest: seq<Row>)
    ensures Ascending([r] + rest) <==> Ascending(rest) && forall x <- rest :: r.sid < x.sid
  {
    var rows := [r] + rest;
    if Ascending(rows) {
      assert forall i | 0 <= i < |rest| :: rest[i] == rows[i + 1];
      forall x <- rest ensures r.sid < x.sid {
        var i :| 0 <= i < |rest| && rest[i] == x;
        assert rows[0].sid < rows[i + 1].sid;
      }
    }
  }

  lemma {:induction false} KeptAscend(types: Types, rows: seq<Row>)
    requires Ascending(rows)
    ensures Ascending(Kept(types, rows))
  {
    hide Made, Kept, Ascending;
    if rows == [] {
      NothingKept(types);
    } else {
      var r, rest := rows[0], rows[1..];
      assert rows == [r] + rest;
      AscendingFirst(r, rest);
      KeptAscend(types, rest);
      KeptAre(types, rest);
      AscendingFirst(r, Kept(types, rest));
      FirstKept(types, r, rest);
    }
  }

  lemma {:induction false} NothingKept(types: Types)
    ensures Kept(types, []) == [] && Ascending(Kept(types, []))
  {
  }

  lemma {:induction false} KeptConcat(types: Types, a: seq<Row>, b: seq<Row>)
    ensures Kept(types, a + b) == Kept(types, a) + Kept(types, b)
  {
    hide Made, Kept;
    if a == [] {
      NothingKept(types);
      assert a + b == b && [] + Kept(types, b) == Kept(types, b);
    } else {
      var r, rest := a[0], a[1..];
      assert a == [r] + rest && a + b == [r] + (rest + b);
      FirstKept(types, r, rest);
      FirstKept(types, r, rest + b);
      KeptConcat(types, rest, b);
      Regrouped([r], Kept(types, rest), Kept(types, b));
    }
  }

  lemma {:induction false} Regrouped(a: seq<Row>, b: seq<Row>, c: seq<Row>)
    ensures a + (b + c) == a + b + c
  {
  }

  // ---------- loading ----------

  datatype Entry = Entry(info: Info, pid: int)

  function Listed(lists: map<int, seq<int>>, id: int): seq<int>
  {
    if id in lists then lists[id] else []
  }

  ghost predicate Ascending(rows: seq<Row>)
  {
    forall i, j | 0 <= i < j < |rows| :: rows[i].sid < rows[j].sid
  }

  // The map holds the items made of the rows.
  ghost predicate IsTable(types: Types, itemMap: map<int, Entry>, rows: seq<Row>)
  {
    && (forall r <- rows ::
      Made(types, r.info).Some? && r.sid in itemMap && itemMap[r.sid] == Entry(Made(types, r.info).value, r.pid))
    && (forall sid <- itemMap :: exists r <- rows :: r.sid == sid)
  }

  // What loading makes of a table: every container and every chest lists its rows in order.
  ghost predicate Loaded(types: Types, rows: seq<Row>, itemMap: map<int, Entry>, contents: map<int, seq<int>>,
                         chests: map<int, seq<int>>)
  {
    IsTable(types, itemMap, Kept(types, rows)) && LoadedFrom(Kept(types, rows), itemMap, contents, chests)
  }

  class PlayerLoader {
    const types: Types
    var itemMap: map<int, Entry>
    var contents: map<int, seq<int>>
    var chests: map<int, seq<int>>

    constructor (types: Types)
      ensures this.types == types && itemMap == map[] && contents == map[] && chests == map[]
    {
      this.types, itemMap, contents, chests := types, map[], map[], map[];
    }

    /** The result set in whatever order it arrives; ids are unique in a table.  Rows of unknown types are left out. */
    method LoadItems(result: seq<Row>, ghost rows: seq<Row>)
      requires Ascending(rows) && forall r :: r in result <==> r in rows
      modifies this`itemMap
      ensures IsTable(types, itemMap, Kept(types, rows)) && Ascending(Kept(types, rows))
    {
      hide Made, Kept;
      itemMap := map[];
      for i := 0 to |result|
        invariant forall r <- result[..i] :: Made(types, r.info).Some? ==>
          r.sid in itemMap && itemMap[r.sid] == Entry(Made(types, r.info).value, r.pid)
        invariant forall sid <- itemMap :: exists r <- result[..i] :: r.sid == sid && Made(types, r.info).Some?
      {
        var r := result[i];
        assert r in result && forall r' <- result[..i] :: r' in result;
        assert forall r' <- result[..i] :: r'.sid == r.sid ==> r' == r;
        assert result[..i + 1] == result[..i] + [r];
        var item := Made(types, r.info);
        if item.Some? {
          itemMap := itemMap[r.sid := Entry(item.value, r.pid)];
        }
      }
      assert result[..|result|] == result;
      KeptAre(types, rows);
      KeptAscend(types, rows);
    }

    /** One row finds its parent and goes to the front of what the parent already holds. */
    method Place(sid: int)
      requires sid in itemMap
      modifies this`contents, this`chests
      ensures Placed(sid, itemMap, old(contents), old(chests), contents, chests)
    {
      var pid := itemMap[sid].pid;
      if pid >= 0 && pid < ROOT_PIDS {
        chests := chests[pid := [sid] + Listed(chests, pid)];
      } else {
        if pid !in itemMap {
          return;
        }
        if itemMap[pid].info.container {
          contents := contents[pid := [sid] + Listed(contents, pid)];
        }
      }
    }

    /** The table from its largest id down to its smallest. */
    method InsertAll(ghost rows: seq<Row>)
      requires Ascending(rows) && IsTable(types, itemMap, rows)
      requires contents == map[] && chests == map[]
      modifies this`contents, this`chests
      ensures LoadedFrom(rows, itemMap, contents, chests)
    {
      hide Ascending, IsTable, Ids, Children, Listed, LoadedFrom, Placed, Made;
      TableKeys(types, itemMap, rows);
      NothingLoaded(itemMap);
      var left := itemMap.Keys;
      ghost var k := |rows|;
      assert rows[..k] == rows && rows[k..] == [];
      while left != {}
        invariant 0 <= k <= |rows| && left == Ids(rows[..k])
        invariant LoadedFrom(rows[k..], itemMap, contents, chests)
        decreases |left|
      {
        LargestId(rows, k);
        var sid :| sid in left && forall other <- left :: other <= sid;
        TableRow(types, itemMap, rows, k - 1);
        ghost var contents0, chests0 := contents, chests;
        Place(sid);
        left := left - {sid};
        k := k - 1;
        OneMore(rows[k..], rows[k + 1..], itemMap, contents0, chests0, contents, chests);
      }
      SomeId(rows, k);
      assert rows[0..] == rows;
    }

    /** The rewards among the items, up to the first that is none */
    method RewardLoop(ghost rows: seq<Row>) returns (rewards: seq<int>)
      requires Ascending(rows) && IsTable(types, itemMap, rows)
      ensures rewards == Leading(rows)
    {
      hide Ascending, IsTable, Ids, Made, Leading;
      TableKeys(types, itemMap, rows);
      NoneLead();
      rewards := [];
      var left := itemMap.Keys;
      ghost var k := 0;
      assert rows[0..] == rows;
      while left != {}
        invariant 0 <= k <= |rows| && left == Ids(rows[k..]) && rewards + Leading(rows[k..]) == Leading(rows)
        decreases |left|
      {
        SmallestId(rows, k);
        var sid :| sid in left && forall other <- left :: sid <= other;
        TableRow(types, itemMap, rows, k);
        NextLeads(rewards, rows, k);
        if 0 <= itemMap[sid].pid < ROOT_PIDS {
          rewards := rewards + [sid];
        } else {
          return;
        }
        left := left - {sid};
        k := k + 1;
      }
      NoIds(rows, k);
    }

    /** The contents of the rewards, from the largest id down to the first reward */
    method RewardContents(ghost rows: seq<Row>) returns (ghost cut: nat)
      requires Ascending(rows) && IsTable(types, itemMap, rows) && contents == map[] && chests == map[]
      modifies this`contents, this`chests
      ensures BehindRoots(rows, cut)
      ensures LoadedFrom(rows[cut..], itemMap, contents, chests)
    {
      hide Ascending, IsTable, Ids, Children, Listed, LoadedFrom, Placed, Made;
      TableKeys(types, itemMap, rows);
      NothingLoaded(itemMap);
      var left := itemMap.Keys;
      cut := |rows|;
      assert rows[..cut] == rows && rows[cut..] == [];
      while left != {}
        invariant 0 <= cut <= |rows| && left == Ids(rows[..cut])
        invariant LoadedFrom(rows[cut..], itemMap, contents, chests)
        invariant forall i | cut <= i < |rows| :: !(0 <= rows[i].pid < ROOT_PIDS)
        decreases |left|
      {
        LargestId(rows, cut);
        var sid :| sid in left && forall other <- left :: other <= sid;
        TableRow(types, itemMap, rows, cut - 1);
        if 0 <= itemMap[sid].pid < ROOT_PIDS {
          return;
        }
        ghost var contents0, chests0 := contents, chests;
        Place(sid);
        left := left - {sid};
        cut := cut - 1;
        OneMore(rows[cut..], rows[cut + 1..], itemMap, contents0, chests0, contents, chests);
      }
      SomeId(rows, cut);
    }
  }

  // The lists hold the rows of `rows`, in order, and no others.
  ghost predicate LoadedFrom(rows: seq<Row>, itemMap: map<int, Entry>, contents: map<int, seq<int>>,
                             chests: map<int, seq<int>>)
  {
    (forall p | 0 <= p < ROOT_PIDS :: Listed(chests, p) == Children(rows, p)) && Filled(rows, itemMap, contents)
  }

  ghost predicate Filled(rows: seq<Row>, itemMap: map<int, Entry>, contents: map<int, seq<int>>)
  {
    forall sid <- itemMap :: sid >= ROOT_PIDS ==>
      Listed(contents, sid) == if itemMap[sid].info.container then Children(rows, sid) else []
  }

  ghost function Ids(rows: seq<Row>): set<int>
  {
    set r <- rows :: r.sid
  }

  lemma {:induction false} NoneLead()
    ensures Leading([]) == []
  {
  }

  lemma {:induction false} NextLeads(done: seq<int>, rows: seq<Row>, k: nat)
    requires k < |rows|
    ensures done + Leading(rows[k..]) ==
      if 0 <= rows[k].pid < ROOT_PIDS then done + [rows[k].sid] + Leading(rows[k + 1..]) else done
  {
    assert rows[k..][1..] == rows[k + 1..];
  }

  lemma {:induction false} TableKeys(types: Types, itemMap: map<int, Entry>, rows: seq<Row>)
    requires IsTable(types, itemMap, rows)
    ensures itemMap.Keys == Ids(rows)
  {
    hide Made;
    assert forall sid :: sid in itemMap.Keys <==> sid in Ids(rows);
  }

  lemma {:induction false} TableRow(types: Types, itemMap: map<int, Entry>, rows: seq<Row>, i: nat)
    requires IsTable(types, itemMap, rows) && i < |rows|
    ensures Made(types, rows[i].info).Some?
    ensures rows[i].sid in itemMap && itemMap[rows[i].sid] == Entry(Made(types, rows[i].info).value, rows[i].pid)
  {
  }

  lemma {:induction false} NothingLoaded(itemMap: map<int, Entry>)
    ensures LoadedFrom([], itemMap, map[], map[])
  {
  }

  lemma {:induction false} LargestId(rows: seq<Row>, k: nat)
    requires Ascending(rows) && k <= |rows| && Ids(rows[..k]) != {}
    ensures k > 0 && rows[k - 1].sid in Ids(rows[..k])
    ensures forall sid <- Ids(rows[..k]) :: sid <= rows[k - 1].sid
    ensures Ids(rows[..k]) - {rows[k - 1].sid} == Ids(rows[..k - 1])
  {
    assert rows[..0] == [] && Ids([]) == {};
    var before, r := rows[..k - 1], rows[k - 1];
    assert rows[..k] == before + [r];
    forall q | q in before
      ensures q.sid < r.sid
    {
      var i :| 0 <= i < k - 1 && rows[i] == q;
    }
  }

  lemma {:induction false} SmallestId(rows: seq<Row>, k: nat)
    requires Ascending(rows) && k <= |rows| && Ids(rows[k..]) != {}
    ensures k < |rows| && rows[k].sid in Ids(rows[k..])
    ensures forall sid <- Ids(rows[k..]) :: rows[k].sid <= sid
    ensures Ids(rows[k..]) - {rows[k].sid} == Ids(rows[k + 1..])
  {
    NoIds(rows, k);
    var r, behind := rows[k], rows[k + 1..];
    assert rows[k..] == [r] + behind;
    forall q | q in behind
      ensures r.sid < q.sid
    {
      var i :| k < i < |rows| && rows[i] == q;
    }
  }

  lemma {:induction false} SomeId(rows: seq<Row>, k: nat)
    requires k <= |rows|
    ensures k > 0 ==> Ids(rows[..k]) != {}
  {
    if k > 0 {
      assert rows[0] in rows[..k];
      assert rows[0].sid in Ids(rows[..k]);
    }
  }

  lemma {:induction false} NoIds(rows: seq<Row>, k: nat)
    requires k <= |rows|
    ensures Ids(rows[k..]) == {} <==> k == |rows|
    ensures k == |rows| ==> Leading(rows[k..]) == []
  {
    if k < |rows| {
      assert rows[k] in rows[k..];
      assert rows[k].sid in Ids(rows[k..]);
    } else {
      assert rows[k..] == [];
    }
  }

  // Where one row goes: to the front of its chest, or of its parent, or nowhere.
  ghost predicate Placed(sid: int, itemMap: map<int, Entry>, contents: map<int, seq<int>>, chests: map<int, seq<int>>,
                         contents': map<int, seq<int>>, chests': map<int, seq<int>>)
    requires sid in itemMap
  {
    var pid := itemMap[sid].pid;
    if 0 <= pid < ROOT_PIDS then
      contents' == contents && chests' == chests[pid := [sid] + Listed(chests, pid)]
    else if pid in itemMap && itemMap[pid].info.container then
      chests' == chests && contents' == contents[pid := [sid] + Listed(contents, pid)]
    else
      chests' == chests && contents' == contents
  }

  lemma {:induction false} OneMore(rows: seq<Row>, rest: seq<Row>, itemMap: map<int, Entry>,
                                   contents: map<int, seq<int>>, chests: map<int, seq<int>>,
                                   contents': map<int, seq<int>>, chests': map<int, seq<int>>)
    requires rows != [] && rows[1..] == rest && LoadedFrom(rest, itemMap, contents, chests)
    requires rows[0].sid in itemMap && itemMap[rows[0].sid].pid == rows[0].pid
    requires Placed(rows[0].sid, itemMap, contents, chests, contents', chests')
    ensures LoadedFrom(rows, itemMap, contents', chests')
  {
    hide Children;
    assert rows == [rows[0]] + rest;
    forall p
      ensures Children(rows, p) == if rows[0].pid == p then [rows[0].sid] + Children(rest, p) else Children(rest, p)
    {
      FirstChild(rows[0], rest, p);
    }
  }

  // ---------- what was loaded ----------

  // The ids listed, followed downwards through the lists, show the trees ts.
  ghost predicate Shows(itemMap: map<int, Entry>, contents: map<int, seq<int>>, sids: seq<int>, ts: seq<Tree<Info>>)
    decreases ts
  {
    |sids| == |ts| && (ts != [] ==>
      && sids[0] in itemMap && itemMap[sids[0]].info == ts[0].val
      && Shows(itemMap, contents, Listed(contents, sids[0]), ts[0].kids)
      && Shows(itemMap, contents, sids[1..], ts[1..]))
  }

  // Of some ids those whose items are made
  function KeptIds(types: Types, rows: seq<Row>, sids: seq<int>): seq<int>
    requires forall i | 0 <= i < |sids| :: FIRST_ID <= sids[i] < FIRST_ID + |rows|
  {
    if sids == [] then [] else
      (if Made(types, rows[sids[0] - FIRST_ID].info).Some? then [sids[0]] else []) + KeptIds(types, rows, sids[1..])
  }

  lemma {:induction false} KeptChildren(types: Types, rows: seq<Row>, from: nat, pid: int)
    requires Numbered(rows) && from <= |rows|
    ensures var sids := Children(rows[from..], pid);
      && (forall i | 0 <= i < |sids| :: FIRST_ID <= sids[i] < FIRST_ID + |rows|)
      && KeptIds(types, rows, sids) == Children(Kept(types, rows[from..]), pid)
    decreases |rows| - from
  {
    hide Made, Kept, KeptIds, Children;
    NoneKept(types, rows, pid);
    if from < |rows| {
      KeptChildren(types, rows, from + 1, pid);
      var r, rest := rows[from], rows[from + 1..];
      assert rows[from..] == [r] + rest && rows[r.sid - FIRST_ID] == r;
      FirstChild(r, rest, pid);
      FirstChild(r, Kept(types, rest), pid);
      FirstKept(types, r, rest);
      FirstKeptId(types, rows, r.sid, Children(rest, pid));
    } else {
      assert rows[from..] == [];
    }
  }

  lemma {:induction false} FirstKept(types: Types, r: Row, rest: seq<Row>)
    ensures Kept(types, [r] + rest) == if Made(types, r.info).Some? then [r] + Kept(types, rest) else Kept(types, rest)
  {
    hide Made;
    assert ([r] + rest)[1..] == rest;
  }

  lemma {:induction false} NoneKept(types: Types, rows: seq<Row>, pid: int)
    ensures Kept(types, []) == [] && KeptIds(types, rows, []) == [] && Children([], pid) == []
  {
  }

  lemma {:induction false} FirstKeptId(types: Types, rows: seq<Row>, sid: int, sids: seq<int>)
    requires FIRST_ID <= sid < FIRST_ID + |rows|
    requires forall i | 0 <= i < |sids| :: FIRST_ID <= sids[i] < FIRST_ID + |rows|
    ensures var rest := KeptIds(types, rows, sids);
      KeptIds(types, rows, [sid] + sids) == if Made(types, rows[sid - FIRST_ID].info).Some? then [sid] + rest else rest
  {
    hide Made;
    assert ([sid] + sids)[1..] == sids;
  }

  lemma {:induction false} LoadedShows(types: Types, rows: seq<Row>, itemMap: map<int, Entry>,
                                       contents: map<int, seq<int>>,
                                       sids: seq<int>, above: int, ts: seq<Tree<Info>>)
    requires Numbered(rows) && IsTable(types, itemMap, Kept(types, rows))
      && Filled(Kept(types, rows), itemMap, contents)
    requires forall i | 0 <= i < |sids| :: above < sids[i] && FIRST_ID <= sids[i] < FIRST_ID + |rows|
    requires AllRebuilt(rows, sids, above) == ts
    ensures Shows(itemMap, contents, KeptIds(types, rows, sids), Reloaded(types, ts))
    decreases ts
  {
    hide Made, Children, Kept, IsTable, Filled, KeptIds, Reloaded, Shows;
    ShowsNothing(types, rows, itemMap, contents);
    if sids != [] {
      LoadedShows(types, rows, itemMap, contents, sids[1..], above, ts[1..]);
      var sid, t := sids[0], ts[0];
      RebuiltParts(rows, sid);
      var info := Made(types, t.val);
      assert sids == [sid] + sids[1..];
      FirstKeptId(types, rows, sid, sids[1..]);
      ReloadedFirst(types, ts);
      if info.Some? {
        EntryOf(types, rows, itemMap, contents, sid);
        if info.value.container {
          KeptChildren(types, rows, 0, sid);
          assert rows[0..] == rows;
          LoadedShows(types, rows, itemMap, contents, Children(rows, sid), sid, t.kids);
        }
        var kids := if info.value.container then Reloaded(types, t.kids) else [];
        ShowsMore(itemMap, contents, sid, info.value, kids, KeptIds(types, rows, sids[1..]), Reloaded(types, ts[1..]));
      }
    }
  }

  lemma {:induction false} ShowsNothing(types: Types, rows: seq<Row>, itemMap: map<int, Entry>,
                                        contents: map<int, seq<int>>)
    ensures KeptIds(types, rows, []) == [] && Reloaded(types, []) == [] && Shows(itemMap, contents, [], [])
  {
  }

  lemma {:induction false} ReloadedFirst(types: Types, ts: seq<Tree<Info>>)
    requires ts != []
    ensures var info, rest := Made(types, ts[0].val), Reloaded(types, ts[1..]);
      Reloaded(types, ts) == if info.None? then rest else
        [Node(info.value, if info.value.container then Reloaded(types, ts[0].kids) else [])] + rest
  {
  }

  lemma {:induction false} ShowsMore(itemMap: map<int, Entry>, contents: map<int, seq<int>>, sid: int, info: Info,
                                     kids: seq<Tree<Info>>, sids: seq<int>, ts: seq<Tree<Info>>)
    requires sid in itemMap && itemMap[sid].info == info && Shows(itemMap, contents, Listed(contents, sid), kids)
    requires Shows(itemMap, contents, sids, ts)
    ensures Shows(itemMap, contents, [sid] + sids, [Node(info, kids)] + ts)
  {
    assert ([sid] + sids)[1..] == sids && ([Node(info, kids)] + ts)[1..] == ts;
  }

  lemma {:induction false} RebuiltParts(rows: seq<Row>, sid: int)
    requires Numbered(rows) && FIRST_ID <= sid < FIRST_ID + |rows|
    ensures ChildIds(rows, sid) && forall i | 0 <= i < |Children(rows, sid)| ::
      sid < Children(rows, sid)[i] && FIRST_ID <= Children(rows, sid)[i] < FIRST_ID + |rows|
    ensures Rebuilt(rows, sid) == Node(rows[sid - FIRST_ID].info, AllRebuilt(rows, Children(rows, sid), sid))
  {
    assert ChildIds(rows, sid);
  }

  lemma {:induction false} EntryOf(types: Types, rows: seq<Row>, itemMap: map<int, Entry>, contents: map<int, seq<int>>,
                                   sid: int)
    requires Numbered(rows) && IsTable(types, itemMap, Kept(types, rows))
      && Filled(Kept(types, rows), itemMap, contents)
    requires FIRST_ID <= sid < FIRST_ID + |rows| && Made(types, rows[sid - FIRST_ID].info).Some?
    ensures sid in itemMap && itemMap[sid].info == Made(types, rows[sid - FIRST_ID].info).value
    ensures Listed(contents, sid) == if itemMap[sid].info.container then Children(Kept(types, rows), sid) else []
  {
    hide Made, Children, Kept;
    KeptAre(types, rows);
    assert rows[sid - FIRST_ID] in rows;
  }

  /**
    Saving any forest and loading its rows gives every slot, chest and box the items saved from it, made again, with
    the contents of every container in the same order.
   */
  lemma {:induction false} RoundTrip(types: Types, items: seq<Root>, itemMap: map<int, Entry>,
                                     contents: map<int, seq<int>>, chests: map<int, seq<int>>, pid: int)
    requires RootPids(items) && Proper(Items(items)) && 0 <= pid < ROOT_PIDS
    requires Loaded(types, SavedRows(items), itemMap, contents, chests)
    ensures Shows(itemMap, contents, Listed(chests, pid), Reloaded(types, Chest(items, pid)))
  {
    hide Children, Kept, AllRebuilt, IsTable, Filled, Shows;
    var rows := SavedRows(items);
    SavedRowsSpell(items, pid);
    assert ChildIds(rows, pid) && rows[0..] == rows;
    KeptChildren(types, rows, 0, pid);
    LoadedShows(types, rows, itemMap, contents, Children(rows, pid), pid, Chest(items, pid));
  }

  // The lists show only one forest.
  lemma {:induction false} ShowsOne(itemMap: map<int, Entry>, contents: map<int, seq<int>>, sids: seq<int>,
                                    ts: seq<Tree<Info>>, us: seq<Tree<Info>>)
    requires Shows(itemMap, contents, sids, ts) && Shows(itemMap, contents, sids, us)
    ensures ts == us
    decreases ts
  {
    if ts != [] {
      ShowsOne(itemMap, contents, Listed(contents, sids[0]), ts[0].kids, us[0].kids);
      ShowsOne(itemMap, contents, sids[1..], ts[1..], us[1..]);
      assert ts == [ts[0]] + ts[1..] && us == [us[0]] + us[1..];
    }
  }

  /** A slot, chest or box shows the very items saved from it if and only if every item, at any depth, is of a known
      type that is not made as another and is still a container if it was one. */
  lemma {:induction false} RoundTripExactly(types: Types, items: seq<Root>, itemMap: map<int, Entry>,
                                            contents: map<int, seq<int>>, chests: map<int, seq<int>>, pid: int)
    requires RootPids(items) && Proper(Items(items)) && 0 <= pid < ROOT_PIDS
    requires Loaded(types, SavedRows(items), itemMap, contents, chests)
    ensures Shows(itemMap, contents, Listed(chests, pid), Chest(items, pid)) <==> AllStay(types, Chest(items, pid))
  {
    hide Loaded, Shows, AllStay, Reloaded, Proper;
    var ts := Chest(items, pid);
    RoundTrip(types, items, itemMap, contents, chests, pid);
    ProperChest(items, pid);
    SameTrees(types, ts);
    if Shows(itemMap, contents, Listed(chests, pid), ts) {
      ShowsOne(itemMap, contents, Listed(chests, pid), ts, Reloaded(types, ts));
    }
  }

  lemma {:induction false} ProperChest(items: seq<Root>, pid: int)
    requires Proper(Items(items))
    ensures Proper(Chest(items, pid))
  {
    if items != [] {
      assert Items(items)[0] == items[0].item && Items(items)[1..] == Items(items[1..]);
      ProperChest(items[1..], pid);
      if items[0].pid == pid {
        assert Chest(items, pid)[1..] == Chest(items[1..], pid);
      } else {
        assert Chest(items, pid) == Chest(items[1..], pid);
      }
    }
  }

  // ---------- rewards: roots and contents are told apart by the first pid past the roots ----------

  function RewardRoots(rewards: seq<Tree<Info>>, running: int): seq<Root>
  {
    if rewards == [] then [] else [Root(running, rewards[0])] + RewardRoots(rewards[1..], running + 1)
  }

  // The rows before the first whose pid is not a root's
  function Leading(rows: seq<Row>): seq<int>
  {
    if rows == [] || !(0 <= rows[0].pid < ROOT_PIDS) then [] else [rows[0].sid] + Leading(rows[1..])
  }

  lemma {:induction false} RewardRootsAre(rewards: seq<Tree<Info>>, running: int)
    ensures |RewardRoots(rewards, running)| == |rewards|
    ensures forall i | 0 <= i < |rewards| :: RewardRoots(rewards, running)[i] == Root(running + i, rewards[i])
    ensures Items(RewardRoots(rewards, running)) == rewards
  {
    if rewards != [] {
      RewardRootsAre(rewards[1..], running + 1);
    }
  }

  // The rows up to the first that is no root
  lemma {:induction false} LeadingAre(rows: seq<Row>, n: nat)
    requires n <= |rows| && (forall i | 0 <= i < n :: 0 <= rows[i].pid < ROOT_PIDS)
    requires n < |rows| ==> !(0 <= rows[n].pid < ROOT_PIDS)
    ensures |Leading(rows)| == n && forall i | 0 <= i < n :: Leading(rows)[i] == rows[i].sid
  {
    if n > 0 {
      LeadingAre(rows[1..], n - 1);
    }
  }

  lemma {:induction false} RangeOf(sids: seq<int>, from: int)
    requires forall i | 0 <= i < |sids| :: sids[i] == from + i
    ensures sids == Range(from, |sids|)
  {
    RangeAre(from, |sids|);
  }

  /** The two loops that stop at the first row of the other kind see exactly the roots and exactly the contents if and
      only if there are fewer than 100 rewards. */
  lemma {:induction false} RewardsSplit(rewards: seq<Tree<Info>>)
    requires Proper(rewards)
    ensures var rows := SavedRows(RewardRoots(rewards, 1));
      && (|rewards| < ROOT_PIDS <==> forall i | 0 <= i < |rows| :: 0 <= rows[i].pid < ROOT_PIDS <==> i < |rewards|)
      && (|rewards| < ROOT_PIDS ==> Leading(rows) == Range(FIRST_ID, |rewards|))
  {
    hide Drain, RootRows, Items, Rebuilt, Proper, Leading;
    var items := RewardRoots(rewards, 1);
    var rows := SavedRows(items);
    RewardRootsAre(rewards, 1);
    RootRowsAre(items, FIRST_ID);
    if |rewards| < ROOT_PIDS {
      RootsRebuilt(items);
      LeadingAre(rows, |rewards|);
      RangeOf(Leading(rows), FIRST_ID);
    } else {
      assert rows[ROOT_PIDS - 1].pid == ROOT_PIDS;
    }
  }

  // The position behind the last root; the second loop runs down to it.
  ghost predicate BehindRoots(rows: seq<Row>, cut: nat)
  {
    && cut <= |rows|
    && (cut > 0 ==> 0 <= rows[cut - 1].pid < ROOT_PIDS)
    && forall i | cut <= i < |rows| :: !(0 <= rows[i].pid < ROOT_PIDS)
  }

  ghost predicate AllMade(types: Types, rewards: seq<Tree<Info>>)
  {
    forall i | 0 <= i < |rewards| :: Made(types, rewards[i].val).Some?
  }

  // The rows of the rewards themselves are all kept, in front of the others.
  lemma {:induction false} RootsKept(types: Types, rewards: seq<Tree<Info>>)
    requires AllMade(types, rewards)
    ensures var items, rows := RewardRoots(rewards, 1), SavedRows(RewardRoots(rewards, 1));
      && |items| == |rewards| <= |rows|
      && (forall i | 0 <= i < |rewards| :: rows[i] == Row(i + 1, FIRST_ID + i, rewards[i].val))
      && Kept(types, rows) == rows[..|rewards|] + Kept(types, rows[|rewards|..])
  {
    hide Drain, Made, Items, Enqueued, Kept;
    var items := RewardRoots(rewards, 1);
    var rows := SavedRows(items);
    RewardRootsAre(rewards, 1);
    RootRowsAre(items, FIRST_ID);
    var roots, below := rows[..|rewards|], rows[|rewards|..];
    assert rows == roots + below;
    KeptConcat(types, roots, below);
    AllKept(types, roots);
  }

  lemma {:induction false} AllKept(types: Types, rows: seq<Row>)
    requires forall i | 0 <= i < |rows| :: Made(types, rows[i].info).Some?
    ensures Kept(types, rows) == rows
  {
    hide Made;
    if rows != [] {
      AllKept(types, rows[1..]);
    }
  }

  lemma {:induction false} AllKeptIds(types: Types, rows: seq<Row>, sids: seq<int>)
    requires forall i | 0 <= i < |sids| :: FIRST_ID <= sids[i] < FIRST_ID + |rows|
    requires forall i | 0 <= i < |sids| :: IdMade(types, rows, sids[i])
    ensures KeptIds(types, rows, sids) == sids
  {
    hide Made, KeptIds;
    if sids == [] {
      NoneKept(types, rows, 0);
    } else {
      var sid, rest := sids[0], sids[1..];
      assert sids == [sid] + rest && forall i | 0 <= i < |rest| :: rest[i] == sids[i + 1];
      assert IdMade(types, rows, sid);
      FirstKeptId(types, rows, sid, rest);
      AllKeptIds(types, rows, rest);
    }
  }

  predicate IdMade(types: Types, rows: seq<Row>, sid: int)
  {
    FIRST_ID <= sid < FIRST_ID + |rows| && Made(types, rows[sid - FIRST_ID].info).Some?
  }

  lemma {:induction false} AllReloaded(types: Types, ts: seq<Tree<Info>>)
    requires AllMade(types, ts)
    ensures |Reloaded(types, ts)| == |ts|
  {
    if ts != [] {
      assert forall i | 0 <= i < |ts[1..]| :: ts[1..][i] == ts[i + 1];
      AllReloaded(types, ts[1..]);
    }
  }

  lemma {:induction false} CutAt(rows: seq<Row>, cut: nat, n: nat)
    requires BehindRoots(rows, cut) && n <= |rows|
    requires forall i | 0 <= i < |rows| :: 0 <= rows[i].pid < ROOT_PIDS <==> i < n
    ensures cut == n
  {
    var last := if cut > 0 then Some(rows[cut - 1]) else None;
    var next := if cut < |rows| then Some(rows[cut]) else None;
  }

  // The kept rows behind the last root are those of the contents, and nothing lies in a root's own row.
  lemma {:induction false} ContentsBehind(types: Types, rewards: seq<Tree<Info>>, cut: nat)
    requires Proper(rewards) && AllMade(types, rewards) && |rewards| < ROOT_PIDS
    requires BehindRoots(Kept(types, SavedRows(RewardRoots(rewards, 1))), cut)
    ensures var rows := SavedRows(RewardRoots(rewards, 1)); var kept := Kept(types, rows);
      && Numbered(rows) && cut == |rewards| && Leading(kept) == Range(FIRST_ID, |rewards|)
      && forall sid | sid >= ROOT_PIDS :: Children(kept[cut..], sid) == Children(kept, sid)
  {
    hide Made, Kept, SavedRows, RewardRoots, Rebuilt, Proper, Items, Children, Leading, BehindRoots;
    var rows, n := SavedRows(RewardRoots(rewards, 1)), |rewards|;
    RewardRootsAre(rewards, 1);
    RootsRebuilt(RewardRoots(rewards, 1));
    RootsKept(types, rewards);
    var kept, below := Kept(types, rows), rows[n..];
    KeptAre(types, below);
    forall j | n <= j < |kept|
      ensures kept[j].pid >= FIRST_ID
    {
      assert kept[j] == Kept(types, below)[j - n] && Kept(types, below)[j - n] in Kept(types, below);
    }
    assert forall j | 0 <= j < n :: kept[j] == rows[j];
    CutAt(kept, cut, n);
    LeadingAre(kept, n);
    RangeOf(Leading(kept), FIRST_ID);
    forall sid | sid >= ROOT_PIDS
      ensures Children(kept[cut..], sid) == Children(kept, sid)
    {
      assert kept == kept[..n] + kept[n..];
      ChildrenConcat(kept[..n], kept[n..], sid);
      NoChildren(kept[..n], sid);
    }
  }

  /**
    Rewards of a known type come back, each with its contents in the same order, if and only if there are fewer than
    100 of them.
   */
  lemma {:induction false} RewardRoundTrip(types: Types, rewards: seq<Tree<Info>>, itemMap: map<int, Entry>,
                                           contents: map<int, seq<int>>, chests: map<int, seq<int>>, cut: nat)
    requires Proper(rewards) && AllMade(types, rewards)
    requires IsTable(types, itemMap, Kept(types, SavedRows(RewardRoots(rewards, 1))))
    requires BehindRoots(Kept(types, SavedRows(RewardRoots(rewards, 1))), cut)
    requires LoadedFrom(Kept(types, SavedRows(RewardRoots(rewards, 1)))[cut..], itemMap, contents, chests)
    ensures var kept := Kept(types, SavedRows(RewardRoots(rewards, 1)));
      Shows(itemMap, contents, Leading(kept), Reloaded(types, rewards)) <==> |rewards| < ROOT_PIDS
  {
    hide Made, Kept, SavedRows, RewardRoots, Rebuilt, AllRebuilt, Proper, Items, Children, IsTable, Leading, Reloaded;
    var rows, n := SavedRows(RewardRoots(rewards, 1)), |rewards|;
    var kept := Kept(types, rows);
    RootsKept(types, rewards);
    if n < ROOT_PIDS {
      ContentsBehind(types, rewards, cut);
      RewardRootsAre(rewards, 1);
      RootsRebuilt(RewardRoots(rewards, 1));
      RebuiltRange(rows, rewards, FIRST_ID, FIRST_ID - 1);
      AllKeptIds(types, rows, Range(FIRST_ID, n));
      assert Filled(kept, itemMap, contents);
      LoadedShows(types, rows, itemMap, contents, Range(FIRST_ID, n), FIRST_ID - 1, rewards);
    } else {
      assert kept[ROOT_PIDS - 1] == rows[ROOT_PIDS - 1];
      LeadingAre(kept, ROOT_PIDS - 1);
      AllReloaded(types, rewards);
      NotShown(itemMap, contents, Leading(kept), Reloaded(types, rewards));
    }
  }

  lemma {:induction false} NotShown(itemMap: map<int, Entry>, contents: map<int, seq<int>>, sids: seq<int>,
                                    ts: seq<Tree<Info>>)
    requires |sids| != |ts|
    ensures !Shows(itemMap, contents, sids, ts)
  {
  }

  // ---------- the inbox query keeps only the 5000 largest ids ----------

  function Limited(rows: seq<Row>): seq<Row>
  {
    if |rows| <= INBOX_LIMIT then rows else rows[|rows| - INBOX_LIMIT..]
  }

  /** The inbox comes back complete if and only if its rows fit the limit. */
  lemma {:induction false} InboxLimit(items: seq<Root>)
    requires items != [] && Proper(Items(items)) && forall i | 0 <= i < |items| :: items[i].pid == 0
    ensures var rows := SavedRows(items);
      |rows| <= INBOX_LIMIT <==> Children(Limited(rows), 0) == Children(rows, 0)
  {
    hide SavedRows, Rebuilt, Proper, Items;
    var rows := SavedRows(items);
    RootsRebuilt(items);
    if |rows| > INBOX_LIMIT {
      var dropped := rows[..|rows| - INBOX_LIMIT];
      assert rows == dropped + Limited(rows);
      ChildrenConcat(dropped, Limited(rows), 0);
      assert dropped[0] == rows[0];
    }
  }
}
