/**
  The loader as it runs: node objects whose fields are filled in while a byte cursor moves, and
  a stack of the nodes still open.  It is proved to deliver exactly `OtbLoader.Load`.
 */
module OtbParser {
  import opened Options
  import opened OtbLoader

  class Node {
    var kind: byte
    var propsBegin: nat
    var propsEnd: nat
    var children: seq<Node>

    constructor (kind: byte, propsBegin: nat)
      ensures this.kind == kind && this.propsBegin == propsBegin && propsEnd == 0 && children == []
    {
      this.kind, this.propsBegin, propsEnd, children := kind, propsBegin, 0, [];
    }
  }

  // The objects from n downwards, all in R, hold the tree t.
  ghost predicate Holds(n: Node, t: ParsedNode, R: set<Node>)
    reads R
    decreases t
  {
    && n in R && n.kind == t.kind && n.propsBegin == t.propsBegin && n.propsEnd == t.propsEnd
    && |n.children| == |t.children|
    && forall i | 0 <= i < |t.children| :: Holds(n.children[i], t.children[i], R)
  }

  lemma {:induction false} HoldsMore(n: Node, t: ParsedNode, R: set<Node>, R': set<Node>)
    requires Holds(n, t, R) && R <= R'
    ensures Holds(n, t, R')
    decreases t
  {
    forall i | 0 <= i < |t.children|
      ensures Holds(n.children[i], t.children[i], R')
    {
      HoldsMore(n.children[i], t.children[i], R, R');
    }
  }

  // n is an open node with frame f; its finished children lie in R, `more` children are open.
  ghost predicate OpenNode(n: Node, f: Frame, more: nat, R: set<Node>)
    reads n, R
  {
    && n.kind == f.kind && n.propsBegin == f.propsBegin && n.propsEnd == f.propsEnd
    && |n.children| == |f.children| + more
    && forall i | 0 <= i < |f.children| :: Holds(n.children[i], f.children[i], R)
  }

  // The stack is the rightmost path: every open node but the first is the last child of the one before.
  ghost predicate RightmostPath(stack: seq<Node>, open: seq<Frame>, R: set<Node>)
    reads stack, R
  {
    && |stack| == |open|
    && (forall i, j | 0 <= i < j < |stack| :: stack[i] != stack[j])
    && (forall i | 0 <= i < |stack| :: stack[i] !in R)
    && (forall i | 0 <= i < |stack| :: OpenNode(stack[i], open[i], if i + 1 < |stack| then 1 else 0, R))
    && (forall i | 0 <= i < |stack| - 1 :: stack[i].children[|open[i].children|] == stack[i + 1])
  }

  lemma {:induction false} OpenNodeMore(n: Node, f: Frame, more: nat, R: set<Node>, R': set<Node>)
    requires OpenNode(n, f, more, R) && R <= R'
    ensures OpenNode(n, f, more, R')
  {
    forall i | 0 <= i < |f.children|
      ensures Holds(n.children[i], f.children[i], R')
    {
      HoldsMore(n.children[i], f.children[i], R, R');
    }
  }

  class Loader {
    const fileContents: seq<byte>
    var root: Node

    /** Fails for short files and for files whose identifier is neither the accepted one nor all zero. */
    static predicate Accepts(contents: seq<byte>, acceptedIdentifier: seq<byte>)
    {
      |contents| > MINIMAL_SIZE && (contents[..IDENTIFIER] == acceptedIdentifier
        || contents[..IDENTIFIER] == [0, 0, 0, 0])
    }

    constructor (contents: seq<byte>)
      ensures fileContents == contents && fresh(root)
    {
      fileContents := contents;
      root := new Node(0, 0);
    }

    /** A loader for the file, or null where the file is rejected at once. */
    static method Open(contents: seq<byte>, acceptedIdentifier: seq<byte>) returns (loader: Loader?)
      ensures loader != null <==> Accepts(contents, acceptedIdentifier)
      ensures loader != null ==> fresh(loader) && loader.fileContents == contents && fresh(loader.root)
    {
      loader := null;
      if |contents| > MINIMAL_SIZE {
        if contents[..IDENTIFIER] == acceptedIdentifier || contents[..IDENTIFIER] == [0, 0, 0, 0] {
          loader := new Loader(contents);
        }
      }
    }

    /** The unescaped properties of a node; false when it has none. */
    method GetProps(node: Node) returns (ok: bool, props: seq<byte>)
      requires node.propsBegin <= node.propsEnd <= |fileContents|
      ensures ok <==> node.propsBegin != node.propsEnd
      ensures props == Unescape(fileContents[node.propsBegin..node.propsEnd]).0
    {
      props := [];
      if node.propsBegin == node.propsEnd {
        return false, [];
      }
      var lastEscaped := false;
      var it := node.propsBegin;
      while it < node.propsEnd
        invariant node.propsBegin <= it <= node.propsEnd
        invariant (props, lastEscaped) == Unescape(fileContents[node.propsBegin..it])
      {
        assert Front(fileContents[node.propsBegin..it + 1]) == fileContents[node.propsBegin..it];
        lastEscaped := fileContents[it] == ESCAPE && !lastEscaped;
        if !lastEscaped {
          props := props + [fileContents[it]];
        }
        it := it + 1;
      }
      ok := true;
    }

    method ParseTree() returns (ok: bool, ghost R: set<Node>)
      requires |fileContents| > MINIMAL_SIZE
      modifies root
      ensures ok <==> Load(fileContents).Some?
      ensures ok ==> Holds(root, Load(fileContents).value, R)
    {
      hide Run, Holds;
      R := {};
      var it := IDENTIFIER;
      if fileContents[it] != START {
        return false, R;
      }
      it := it + 1;
      root.kind := fileContents[it];
      it := it + 1;
      root.propsBegin := it;
      root.propsEnd, root.children := 0, [];
      var parseStack := [root];
      ghost var st := Begin(fileContents);
      while it < |fileContents|
        invariant IDENTIFIER + 2 <= it <= |fileContents|
        invariant root == old(root)
        invariant forall i | 0 <= i < |parseStack| :: parseStack[i] == root || fresh(parseStack[i])
        invariant st.open == [] ==> st.root.Some? && Holds(root, st.root.value, R)
        invariant st.open != [] ==> parseStack != [] && parseStack[0] == root
        invariant RightmostPath(parseStack, st.open, R)
        invariant Load(fileContents) == Run(fileContents, it, st)
      {
        var b := fileContents[it];
        if b == START {
          if parseStack == [] {
            RunFails(fileContents, it, st);
            return false, R;
          }
          if it + 1 == |fileContents| {
            RunFails(fileContents, it, st);
            return false, R;
          }
          RunStart(fileContents, it, fileContents[it + 1], st);
          var child := PushChild(parseStack, it, fileContents[it + 1], st, R);
          parseStack := parseStack + [child];
          st := OpenChild(st, it, fileContents[it + 1]);
          it := it + 1;
        } else if b == END {
          if parseStack == [] {
            RunFails(fileContents, it, st);
            return false, R;
          }
          RunEnd(fileContents, it, st);
          R := PopNode(parseStack, it, st, R);
          parseStack := Front(parseStack);
          st := CloseTop(st, it);
        } else if b == ESCAPE {
          RunOther(fileContents, it, st);
          it := it + 1;
          if it == |fileContents| {
            return false, R;
          }
        } else {
          RunOther(fileContents, it, st);
        }
        it := it + 1;
      }
      RunOut(fileContents, it, st);
      ok := parseStack == [];
    }
  }

  /** START: the open node's properties end here unless a child has ended them; a child is added. */
  method PushChild(stack: seq<Node>, it: nat, kind: byte, ghost st: State, ghost R: set<Node>) returns (child: Node)
    requires stack != [] && RightmostPath(stack, st.open, R)
    modifies Last(stack)
    ensures fresh(child)
    ensures RightmostPath(stack + [child], OpenChild(st, it, kind).open, R)
  {
    var currentNode := Last(stack);
    if currentNode.children == [] {
      currentNode.propsEnd := it;
    }
    child := new Node(kind, it + 2);
    currentNode.children := currentNode.children + [child];
    ghost var open, stack' := OpenChild(st, it, kind).open, stack + [child];
    hide Holds;
    forall i | 0 <= i < |stack'|
      ensures OpenNode(stack'[i], open[i], if i + 1 < |stack'| then 1 else 0, R)
    {
      if i < |stack| - 1 {
        assert stack'[i] == stack[i] && open[i] == st.open[i];
        assert old(OpenNode(stack[i], st.open[i], 1, R));
      } else if i == |stack| - 1 {
        assert old(OpenNode(stack[i], st.open[i], 0, R));
      }
    }
  }

  /** END: the open node is complete, and its parent on the stack is open again. */
  method PopNode(stack: seq<Node>, it: nat, ghost st: State, ghost R: set<Node>) returns (ghost R': set<Node>)
    requires stack != [] && RightmostPath(stack, st.open, R)
    modifies Last(stack)
    ensures R' == R + {Last(stack)}
    ensures RightmostPath(Front(stack), CloseTop(st, it).open, R')
    ensures |stack| == 1 ==> CloseTop(st, it).root.Some? && Holds(stack[0], CloseTop(st, it).root.value, R')
  {
    var currentNode := Last(stack);
    if currentNode.children == [] {
      currentNode.propsEnd := it;
    }
    R' := R + {currentNode};
    ghost var node := Finished(Last(st.open), it);
    assert Holds(currentNode, node, R') by {
      assert old(OpenNode(currentNode, Last(st.open), 0, R));
      OpenNodeMore(currentNode, Last(st.open).(propsEnd := currentNode.propsEnd), 0, R, R');
    }
    hide Holds;
    ghost var open, stack' := CloseTop(st, it).open, Front(stack);
    forall i | 0 <= i < |stack'|
      ensures OpenNode(stack'[i], open[i], if i + 1 < |stack'| then 1 else 0, R')
    {
      assert old(OpenNode(stack[i], st.open[i], 1, R));
      OpenNodeMore(stack[i], st.open[i], 1, R, R');
    }
  }
}
