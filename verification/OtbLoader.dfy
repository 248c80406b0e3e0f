/**
  The binary node format: START, a raw type byte, properties with the three special bytes
  escaped, child nodes, END.  The grammar says which byte strings are well formed, independently
  of the loader; the loader is a byte cursor with an explicit stack of nodes.
 */
module OtbLoader {
  import opened Options

  type byte = b: int | 0 <= b < 256

  const ESCAPE: byte := 0xFD
  const START: byte := 0xFE
  const END: byte := 0xFF

  const IDENTIFIER := 4
  const MINIMAL_SIZE := 7

  predicate Special(b: byte)
  {
    b == ESCAPE || b == START || b == END
  }

  // ---------- the grammar ----------

  datatype Tok = Plain(b: byte) | Escaped(b: byte)

  // A node as spelled: properties first, then children, each followed by bytes nobody reads.
  datatype Raw = Raw(kind: byte, props: seq<Tok>, kids: seq<Kid>)
  datatype Kid = Kid(node: Raw, gap: seq<Tok>)

  ghost predicate Legal(toks: seq<Tok>)
  {
    forall t <- toks :: t.Plain? ==> !Special(t.b)
  }

  ghost predicate WellFormed(r: Raw)
  {
    Legal(r.props) && KidsWellFormed(r.kids)
  }

  ghost predicate KidsWellFormed(kids: seq<Kid>)
  {
    kids == [] ||
    (KidsWellFormed(Front(kids)) && WellFormed(Last(kids).node) && Legal(Last(kids).gap))
  }

  function Front<T>(s: seq<T>): seq<T>
    requires s != []
  {
    s[..|s| - 1]
  }

  function Last<T>(s: seq<T>): T
    requires s != []
  {
    s[|s| - 1]
  }

  function SpellTok(t: Tok): seq<byte>
  {
    if t.Plain? then [t.b] else [ESCAPE, t.b]
  }

  function SpellToks(toks: seq<Tok>): seq<byte>
  {
    if toks == [] then [] else SpellToks(Front(toks)) + SpellTok(Last(toks))
  }

  function Spell(r: Raw): seq<byte>
    decreases r, 1
  {
    Head(r) + [END]
  }

  // The spelling of a node that is not closed yet
  function Head(r: Raw): seq<byte>
    decreases r, 0
  {
    [START, r.kind] + SpellToks(r.props) + SpellKids(r.kids)
  }

  function SpellKids(kids: seq<Kid>): seq<byte>
  {
    if kids == [] then [] else
      SpellKids(Front(kids)) + (Spell(Last(kids).node) + SpellToks(Last(kids).gap))
  }

  // ---------- what the loader builds ----------

  datatype ParsedNode = ParsedNode(kind: byte, propsBegin: nat, propsEnd: nat, children: seq<ParsedNode>)

  // The node tree of a spelling that begins at offset `at`
  function Parsed(r: Raw, at: nat): ParsedNode
  {
    var propsEnd := at + 2 + |SpellToks(r.props)|;
    ParsedNode(r.kind, at + 2, propsEnd, ParsedKids(r.kids, propsEnd))
  }

  function ParsedKids(kids: seq<Kid>, at: nat): seq<ParsedNode>
  {
    if kids == [] then [] else
      ParsedKids(Front(kids), at) + [Parsed(Last(kids).node, at + |SpellKids(Front(kids))|)]
  }

  // ---------- the loader as a machine over the bytes ----------

  datatype Frame = Frame(kind: byte, propsBegin: nat, propsEnd: nat, children: seq<ParsedNode>)

  // The open nodes, outermost first; once the outermost is closed, the finished tree.
  datatype State = State(open: seq<Frame>, root: Option<ParsedNode>)

  function EndProps(f: Frame, it: nat): Frame
  {
    if f.children == [] then f.(propsEnd := it) else f
  }

  function OpenChild(st: State, it: nat, kind: byte): State
    requires st.open != []
  {
    st.(open := Front(st.open) + [EndProps(Last(st.open), it), Frame(kind, it + 2, 0, [])])
  }

  function Finished(f: Frame, it: nat): ParsedNode
  {
    ParsedNode(f.kind, f.propsBegin, EndProps(f, it).propsEnd, f.children)
  }

  function Adopt(f: Frame, n: ParsedNode): Frame
  {
    f.(children := f.children + [n])
  }

  function CloseTop(st: State, it: nat): State
    requires st.open != []
  {
    var node := Finished(Last(st.open), it);
    var below := Front(st.open);
    if below == [] then State([], Some(node)) else
      State(Front(below) + [Adopt(Last(below), node)], st.root)
  }

  function Run(s: seq<byte>, it: nat, st: State): Option<ParsedNode>
    requires st.open == [] ==> st.root.Some?
    decreases |s| - it
  {
    if it >= |s| then (if st.open == [] then st.root else None)
    else if s[it] == START then
      if st.open == [] || it + 1 == |s| then None else Run(s, it + 2, OpenChild(st, it, s[it + 1]))
    else if s[it] == END then
      if st.open == [] then None else Run(s, it + 1, CloseTop(st, it))
    else if s[it] == ESCAPE then
      if it + 1 == |s| then None else Run(s, it + 2, st)
    else Run(s, it + 1, st)
  }

  function Begin(s: seq<byte>): State
    requires |s| > MINIMAL_SIZE
  {
    State([Frame(s[IDENTIFIER + 1], IDENTIFIER + 2, 0, [])], None)
  }

  // What parseTree delivers for a file, as a function of its bytes
  function Load(s: seq<byte>): Option<ParsedNode>
    requires |s| > MINIMAL_SIZE
  {
    if s[IDENTIFIER] != START then None else Run(s, IDENTIFIER + 2, Begin(s))
  }

  // ---------- every well-formed spelling loads, as the tree it spells ----------

  predicate At(s: seq<byte>, it: nat, part: seq<byte>)
  {
    it + |part| <= |s| && s[it..it + |part|] == part
  }

  lemma {:induction false} AtConcat(s: seq<byte>, it: nat, a: seq<byte>, b: seq<byte>)
    requires At(s, it, a + b)
    ensures At(s, it, a) && At(s, it + |a|, b)
  {
    assert s[it..it + |a|] == s[it..it + |a + b|][..|a|];
    assert s[it + |a|..it + |a + b|] == s[it..it + |a + b|][|a|..];
  }

  lemma {:induction false} AtConcat3(s: seq<byte>, it: nat, a: seq<byte>, b: seq<byte>, c: seq<byte>)
    requires At(s, it, a + (b + c))
    ensures At(s, it, a) && At(s, it + |a|, b) && At(s, it + |a| + |b|, c)
  {
    AtConcat(s, it, a, b + c);
    AtConcat(s, it + |a|, b, c);
  }

  lemma {:induction false} RunToks(s: seq<byte>, it: nat, toks: seq<Tok>, st: State)
    requires st.open == [] ==> st.root.Some?
    requires At(s, it, SpellToks(toks)) && Legal(toks)
    ensures Run(s, it, st) == Run(s, it + |SpellToks(toks)|, st)
  {
    hide Run, SpellTok, At;
    if toks != [] {
      assert Last(toks) in toks;
      AtConcat(s, it, SpellToks(Front(toks)), SpellTok(Last(toks)));
      RunToks(s, it, Front(toks), st);
      RunTok(s, it + |SpellToks(Front(toks))|, Last(toks), st);
    } else {
      assert |SpellToks(toks)| == 0;
    }
  }

  lemma {:induction false} RunTok(s: seq<byte>, it: nat, t: Tok, st: State)
    requires st.open == [] ==> st.root.Some?
    requires At(s, it, SpellTok(t)) && (t.Plain? ==> !Special(t.b))
    ensures Run(s, it, st) == Run(s, it + |SpellTok(t)|, st)
  {
    assert s[it..it + |SpellTok(t)|][0] == s[it];
  }

  lemma {:induction false} RunStart(s: seq<byte>, it: nat, kind: byte, st: State)
    requires st.open != [] && At(s, it, [START, kind])
    ensures Run(s, it, st) == Run(s, it + 2, OpenChild(st, it, kind))
  {
    assert s[it] == s[it..it + 2][0] && s[it + 1] == s[it..it + 2][1];
  }

  lemma {:induction false} RunEnd(s: seq<byte>, it: nat, st: State)
    requires st.open != [] && At(s, it, [END])
    ensures Run(s, it, st) == Run(s, it + 1, CloseTop(st, it))
  {
    assert s[it] == s[it..it + 1][0];
  }

  // The open node at the top receives a finished child that began at `it`.
  function Attach(st: State, it: nat, n: ParsedNode): State
    requires st.open != []
  {
    st.(open := Front(st.open) + [Adopt(EndProps(Last(st.open), it), n)])
  }

  lemma {:induction false} RunNode(s: seq<byte>, it: nat, r: Raw, st: State)
    requires st.open != [] && WellFormed(r) && At(s, it, Spell(r))
    ensures Run(s, it, st) == Run(s, it + |Spell(r)|, Attach(st, it, Parsed(r, it)))
    decreases r, 1
  {
    hide Run, SpellToks, SpellKids, ParsedKids;
    AtConcat(s, it, Head(r), [END]);
    AtConcat(s, it, [START, r.kind] + SpellToks(r.props), SpellKids(r.kids));
    AtConcat(s, it, [START, r.kind], SpellToks(r.props));
    var inner, end := OpenChild(st, it, r.kind), it + |Head(r)|;
    var full := WithBody(inner, r, it);
    RunStart(s, it, r.kind, st);
    RunBody(s, it, r, inner);
    RunEnd(s, end, full);
    KidsSpelled(r.kids, Parsed(r, it).propsEnd);
    assert Front(full.open) == Front(inner.open) == Front(st.open) + [EndProps(Last(st.open), it)];
    assert Front(Front(full.open)) == Front(st.open);
    assert Finished(Last(full.open), end) == Parsed(r, it);
  }

  lemma {:induction false} KidsSpelled(kids: seq<Kid>, at: nat)
    ensures |ParsedKids(kids, at)| == |kids|
    ensures kids == [] ==> SpellKids(kids) == []
  {
    if kids != [] {
      KidsSpelled(Front(kids), at);
    }
  }

  // The top frame once properties and children of r have been read
  function WithBody(st: State, r: Raw, at: nat): State
    requires st.open != []
  {
    var p := Parsed(r, at);
    st.(open := Front(st.open) + [Last(st.open).(
      propsEnd := if r.kids == [] then Last(st.open).propsEnd else p.propsEnd, children := p.children)])
  }

  lemma {:induction false} RunBody(s: seq<byte>, at: nat, r: Raw, st: State)
    requires st.open != [] && Last(st.open).children == [] && WellFormed(r)
    requires At(s, at + 2, SpellToks(r.props)) && At(s, at + 2 + |SpellToks(r.props)|, SpellKids(r.kids))
    ensures Run(s, at + 2, st) == Run(s, at + |Head(r)|, WithBody(st, r, at))
    decreases r, 0
  {
    hide Run, SpellToks, SpellKids, ParsedKids, At;
    var propsEnd := at + 2 + |SpellToks(r.props)|;
    RunToks(s, at + 2, r.props, st);
    RunKids(s, propsEnd, r.kids, st);
    assert WithBody(st, r, at) == WithKids(st, r.kids, propsEnd);
  }

  function WithKids(st: State, kids: seq<Kid>, at: nat): State
    requires st.open != []
  {
    var top := Last(st.open);
    st.(open := Front(st.open) + [top.(propsEnd := if kids == [] then top.propsEnd else at,
      children := ParsedKids(kids, at))])
  }

  lemma {:induction false} RunKids(s: seq<byte>, at: nat, kids: seq<Kid>, st: State)
    requires st.open != [] && Last(st.open).children == [] && KidsWellFormed(kids)
    requires At(s, at, SpellKids(kids))
    ensures Run(s, at, st) == Run(s, at + |SpellKids(kids)|, WithKids(st, kids, at))
    decreases kids
  {
    hide Run, SpellToks, SpellKids, Spell, Parsed, ParsedKids, Attach, At;
    if kids == [] {
      NoKids(st, at);
    } else {
      var k, before := Last(kids), SpellKids(Front(kids));
      var mid := at + |before|;
      LastKidSpelled(s, at, kids);
      AttachLast(st, kids, at);
      RunKids(s, at, Front(kids), st);
      RunNode(s, mid, k.node, WithKids(st, Front(kids), at));
      RunToks(s, mid + |Spell(k.node)|, k.gap, WithKids(st, kids, at));
    }
  }

  lemma {:induction false} NoKids(st: State, at: nat)
    requires st.open != [] && Last(st.open).children == []
    ensures WithKids(st, [], at) == st && SpellKids([]) == []
  {
  }

  lemma {:induction false} LastKidSpelled(s: seq<byte>, at: nat, kids: seq<Kid>)
    requires kids != [] && At(s, at, SpellKids(kids))
    ensures var k, before := Last(kids), SpellKids(Front(kids));
      var mid := at + |before|;
      && At(s, at, before) && At(s, mid, Spell(k.node)) && At(s, mid + |Spell(k.node)|, SpellToks(k.gap))
      && |SpellKids(kids)| == |before| + |Spell(k.node)| + |SpellToks(k.gap)|
  {
    hide Spell, SpellToks, At;
    AtConcat3(s, at, SpellKids(Front(kids)), Spell(Last(kids).node), SpellToks(Last(kids).gap));
  }

  lemma {:induction false} AttachLast(st: State, kids: seq<Kid>, at: nat)
    requires st.open != [] && Last(st.open).children == [] && kids != []
    ensures WithKids(st, Front(kids), at).open != []
    ensures var mid := at + |SpellKids(Front(kids))|;
      Attach(WithKids(st, Front(kids), at), mid, Parsed(Last(kids).node, mid)) == WithKids(st, kids, at)
    ensures Last(WithKids(st, Front(kids), at).open).propsBegin == Last(st.open).propsBegin
  {
    KidsSpelled(Front(kids), at);
  }

  lemma {:induction false} LoadsSpelling(s: seq<byte>, r: Raw, trail: seq<Tok>)
    requires |s| > MINIMAL_SIZE && WellFormed(r) && Legal(trail)
    requires At(s, IDENTIFIER, Spell(r)) && At(s, IDENTIFIER + |Spell(r)|, SpellToks(trail))
    requires |s| == IDENTIFIER + |Spell(r)| + |SpellToks(trail)|
    ensures Load(s) == Some(Parsed(r, IDENTIFIER))
  {
    hide Run, SpellToks, SpellKids, Parsed, Head, At, WellFormed, WithBody, CloseTop;
    var it, end, done := IDENTIFIER, IDENTIFIER + |Head(r)|, State([], Some(Parsed(r, IDENTIFIER)));
    HeadStart(s, it, r);
    SpellParts(s, it, r);
    HeadParts(s, it, r);
    RunBody(s, it, r, Begin(s));
    CloseRoot(Begin(s), r, it);
    RunEnd(s, end, WithBody(Begin(s), r, it));
    RunToks(s, end + 1, trail, done);
    RunOut(s, |s|, done);
  }

  /** Whatever is spelled after an identifier, followed by plain trailing bytes, loads as its tree. */
  lemma {:induction false} LoadsWhatIsSpelled(ident: seq<byte>, r: Raw, trail: seq<Tok>)
    requires |ident| == IDENTIFIER && WellFormed(r) && Legal(trail)
    requires |ident + Spell(r) + SpellToks(trail)| > MINIMAL_SIZE
    ensures Load(ident + Spell(r) + SpellToks(trail)) == Some(Parsed(r, IDENTIFIER))
  {
    hide Spell, SpellToks, Load, WellFormed, Parsed;
    LoadsSpelling(ident + Spell(r) + SpellToks(trail), r, trail);
  }

  lemma {:induction false} CloseRoot(st: State, r: Raw, at: nat)
    requires st == State([Frame(r.kind, at + 2, 0, [])], None)
    ensures WithBody(st, r, at).open != []
    ensures CloseTop(WithBody(st, r, at), at + |Head(r)|) == State([], Some(Parsed(r, at)))
  {
    hide SpellToks, ParsedKids;
    KidsSpelled(r.kids, Parsed(r, at).propsEnd);
    assert Front(WithBody(st, r, at).open) == [];
  }

  lemma {:induction false} HeadStart(s: seq<byte>, at: nat, r: Raw)
    requires At(s, at, Spell(r))
    ensures at + 1 < |s| && s[at] == START && s[at + 1] == r.kind
  {
    assert Spell(r)[0] == START && Spell(r)[1] == r.kind;
    assert s[at] == s[at..at + |Spell(r)|][0] && s[at + 1] == s[at..at + |Spell(r)|][1];
  }

  lemma {:induction false} RunOther(s: seq<byte>, it: nat, st: State)
    requires st.open == [] ==> st.root.Some?
    requires it < |s| && s[it] != START && s[it] != END
    ensures s[it] != ESCAPE ==> Run(s, it, st) == Run(s, it + 1, st)
    ensures s[it] == ESCAPE ==> Run(s, it, st) == if it + 1 == |s| then None else Run(s, it + 2, st)
  {
  }

  lemma {:induction false} RunFails(s: seq<byte>, it: nat, st: State)
    requires it < |s| && (s[it] == START || s[it] == END)
    requires (st.open == [] && st.root.Some?) || (st.open != [] && s[it] == START && it + 1 == |s|)
    ensures Run(s, it, st) == None
  {
  }

  lemma {:induction false} RunOut(s: seq<byte>, it: nat, st: State)
    requires st.open == [] ==> st.root.Some?
    requires it >= |s|
    ensures Run(s, it, st) == if st.open == [] then st.root else None
  {
  }

  // ---------- whatever loads was spelled by the grammar ----------

  function AddTok(r: Raw, t: Tok): Raw
  {
    if r.kids == [] then r.(props := r.props + [t]) else
      r.(kids := Front(r.kids) + [Last(r.kids).(gap := Last(r.kids).gap + [t])])
  }

  function AddKid(r: Raw, k: Raw): Raw
  {
    r.(kids := r.kids + [Kid(k, [])])
  }

  lemma {:induction false} ToksAppend(toks: seq<Tok>, t: Tok)
    ensures SpellToks(toks + [t]) == SpellToks(toks) + SpellTok(t)
  {
    assert Front(toks + [t]) == toks;
  }

  lemma {:induction false} KidsAppend(kids: seq<Kid>, k: Kid, at: nat)
    ensures SpellKids(kids + [k]) == SpellKids(kids) + (Spell(k.node) + SpellToks(k.gap))
    ensures ParsedKids(kids + [k], at) == ParsedKids(kids, at) + [Parsed(k.node, at + |SpellKids(kids)|)]
    ensures KidsWellFormed(kids + [k]) <==> KidsWellFormed(kids) && WellFormed(k.node) && Legal(k.gap)
  {
    assert Front(kids + [k]) == kids && Last(kids + [k]) == k;
  }

  lemma {:induction false} AddTokSpelled(r: Raw, t: Tok, at: nat)
    requires WellFormed(r) && (t.Plain? ==> !Special(t.b))
    ensures WellFormed(AddTok(r, t)) && Head(AddTok(r, t)) == Head(r) + SpellTok(t)
    ensures Parsed(AddTok(r, t), at).children == Parsed(r, at).children
    ensures r.kids != [] ==> Parsed(AddTok(r, t), at) == Parsed(r, at)
  {
    hide Spell, SpellToks, SpellKids, ParsedKids;
    if r.kids == [] {
      ToksAppend(r.props, t);
      KidsSpelled([], Parsed(r, at).propsEnd);
      KidsSpelled([], Parsed(AddTok(r, t), at).propsEnd);
    } else {
      var front, k := Front(r.kids), Last(r.kids);
      assert r.kids == front + [k];
      var begin := at + 2 + |SpellToks(r.props)|;
      ToksAppend(k.gap, t);
      KidsAppend(front, k, begin);
      KidsAppend(front, k.(gap := k.gap + [t]), begin);
    }
  }

  lemma {:induction false} AddKidSpelled(r: Raw, k: Raw, at: nat)
    requires WellFormed(r) && WellFormed(k)
    ensures WellFormed(AddKid(r, k)) && Head(AddKid(r, k)) == Head(r) + Spell(k)
    ensures Parsed(AddKid(r, k), at) == Parsed(r, at).(children := Parsed(r, at).children + [Parsed(k, at + |Head(r)|)])
  {
    hide Spell, SpellToks, SpellKids, ParsedKids;
    var kid := Kid(k, []);
    NoToks();
    KidsAppend(r.kids, kid, at + 2 + |SpellToks(r.props)|);
    SpelledBehind([START, r.kind], SpellToks(r.props), SpellKids(r.kids), Spell(k));
    assert Spell(k) + [] == Spell(k);
  }

  lemma {:induction false} NoToks()
    ensures SpellToks([]) == []
  {
  }

  lemma {:induction false} SpelledBehind(a: seq<byte>, b: seq<byte>, c: seq<byte>, d: seq<byte>)
    ensures a + b + (c + d) == a + b + c + d
  {
  }

  function SpellOpen(rs: seq<Raw>): seq<byte>
  {
    if rs == [] then [] else SpellOpen(Front(rs)) + Head(Last(rs))
  }

  // Frame f is what the loader has of the open node r, which begins at `at`.
  ghost predicate FrameOk(f: Frame, r: Raw, at: nat, top: bool)
  {
    var p := Parsed(r, at);
    && WellFormed(r)
    && f.kind == r.kind && f.propsBegin == p.propsBegin && f.children == p.children
    && (!top || r.kids != [] ==> f.propsEnd == p.propsEnd)
  }

  ghost predicate Agree(open: seq<Frame>, rs: seq<Raw>, top: bool)
  {
    if open == [] || rs == [] then open == [] && rs == [] else
      && FrameOk(Last(open), Last(rs), IDENTIFIER + |SpellOpen(Front(rs))|, top)
      && Agree(Front(open), Front(rs), false)
  }

  lemma {:induction false} TokStep(open: seq<Frame>, rs: seq<Raw>, t: Tok)
    requires open != [] && Agree(open, rs, true) && (t.Plain? ==> !Special(t.b))
    ensures var rs' := Front(rs) + [AddTok(Last(rs), t)];
      Agree(open, rs', true) && SpellOpen(rs') == SpellOpen(rs) + SpellTok(t)
  {
    hide Parsed, Head, WellFormed;
    var rs' := Front(rs) + [AddTok(Last(rs), t)];
    assert Front(rs') == Front(rs);
    AddTokSpelled(Last(rs), t, IDENTIFIER + |SpellOpen(Front(rs))|);
    ParsedKind(Last(rs), IDENTIFIER + |SpellOpen(Front(rs))|);
    ParsedKind(AddTok(Last(rs), t), IDENTIFIER + |SpellOpen(Front(rs))|);
  }

  lemma {:induction false} ParsedKind(r: Raw, at: nat)
    ensures Parsed(r, at).kind == r.kind && Parsed(r, at).propsBegin == at + 2
    ensures Parsed(r, at).children == [] <==> r.kids == []
    ensures r.kids == [] ==> Parsed(r, at).propsEnd == at + |Head(r)|
  {
    KidsSpelled(r.kids, Parsed(r, at).propsEnd);
  }

  lemma {:induction false} StartStep(st: State, rs: seq<Raw>, it: nat, kind: byte)
    requires st.open != [] && Agree(st.open, rs, true) && it == IDENTIFIER + |SpellOpen(rs)|
    ensures var rs' := rs + [Raw(kind, [], [])];
      && OpenChild(st, it, kind).open != []
      && Agree(OpenChild(st, it, kind).open, rs', true) && SpellOpen(rs') == SpellOpen(rs) + [START, kind]
  {
    hide Parsed, Head;
    var rs' := rs + [Raw(kind, [], [])];
    var open' := OpenChild(st, it, kind).open;
    assert Front(rs') == rs && Front(open') == Front(st.open) + [EndProps(Last(st.open), it)];
    assert Front(Front(open')) == Front(st.open);
    ParsedKind(Last(rs), IDENTIFIER + |SpellOpen(Front(rs))|);
    FreshNode(kind, it);
  }

  lemma {:induction false} FreshNode(kind: byte, at: nat)
    ensures WellFormed(Raw(kind, [], [])) && Head(Raw(kind, [], [])) == [START, kind]
    ensures Parsed(Raw(kind, [], []), at) == ParsedNode(kind, at + 2, at + 2, [])
  {
  }

  lemma {:induction false} EndStep(st: State, rs: seq<Raw>, it: nat)
    requires st.open != [] && Agree(st.open, rs, true) && it == IDENTIFIER + |SpellOpen(rs)|
    ensures |rs| == |st.open| && WellFormed(Last(rs))
    ensures |rs| == 1 ==>
      CloseTop(st, it) == State([], Some(Parsed(Last(rs), IDENTIFIER))) && SpellOpen(rs) + [END] == Spell(Last(rs))
    ensures |rs| > 1 ==>
      var below := Front(rs);
      var rs' := Front(below) + [AddKid(Last(below), Last(rs))];
      && CloseTop(st, it).open != []
      && Agree(CloseTop(st, it).open, rs', true) && SpellOpen(rs') == SpellOpen(rs) + [END]
  {
    hide Parsed, Head, WellFormed, AddKid;
    AgreeLength(st.open, rs, true);
    FinishedTop(st, rs, it);
    if |rs| > 1 {
      var below := Front(rs);
      var rs' := Front(below) + [AddKid(Last(below), Last(rs))];
      var st' := CloseTop(st, it);
      assert Front(rs') == Front(below) && Last(rs') == AddKid(Last(below), Last(rs));
      assert Front(st'.open) == Front(Front(st.open));
      AddKidSpelled(Last(below), Last(rs), IDENTIFIER + |SpellOpen(Front(below))|);
      AddKidKind(Last(below), Last(rs));
      assert SpellOpen(rs') == SpellOpen(Front(below)) + (Head(Last(below)) + Spell(Last(rs)));
    }
  }

  lemma {:induction false} AddKidKind(r: Raw, k: Raw)
    ensures AddKid(r, k).kind == r.kind && AddKid(r, k).kids != []
  {
  }

  lemma {:induction false} FinishedTop(st: State, rs: seq<Raw>, it: nat)
    requires st.open != [] && Agree(st.open, rs, true) && it == IDENTIFIER + |SpellOpen(rs)|
    ensures Finished(Last(st.open), it) == Parsed(Last(rs), IDENTIFIER + |SpellOpen(Front(rs))|)
    ensures WellFormed(Last(rs))
  {
    hide Parsed, Head, WellFormed;
    ParsedKind(Last(rs), IDENTIFIER + |SpellOpen(Front(rs))|);
  }

  lemma {:induction false} AgreeLength(open: seq<Frame>, rs: seq<Raw>, top: bool)
    requires Agree(open, rs, top)
    ensures |open| == |rs|
  {
    if open != [] {
      AgreeLength(Front(open), Front(rs), false);
    }
  }

  lemma {:induction false} SoundTail(s: seq<byte>, it: nat, st: State) returns (trail: seq<Tok>)
    requires st.open == [] && st.root.Some? && it <= |s| && Run(s, it, st).Some?
    ensures Legal(trail) && s[it..] == SpellToks(trail) && Run(s, it, st) == st.root
    decreases |s| - it
  {
    if it == |s| {
      trail := [];
    } else {
      var t := if s[it] == ESCAPE then Escaped(s[it + 1]) else Plain(s[it]);
      var rest := SoundTail(s, it + |SpellTok(t)|, st);
      trail := [t] + rest;
      ToksPrepend(t, rest);
      assert s[it..] == SpellTok(t) + s[it + |SpellTok(t)|..];
    }
  }

  lemma {:induction false} ToksPrepend(t: Tok, toks: seq<Tok>)
    ensures SpellToks([t] + toks) == SpellTok(t) + SpellToks(toks)
  {
    hide SpellTok, SpellToks;
    NoToks();
    if toks == [] {
      ToksAppend([], t);
      assert [t] + toks == [] + [t];
      assert [] + SpellTok(t) == SpellTok(t) + [];
    } else {
      var front, last := Front(toks), Last(toks);
      ToksPrepend(t, front);
      ToksAppend(front, last);
      ToksAppend([t] + front, last);
      assert toks == front + [last] && [t] + toks == ([t] + front) + [last];
    }
  }

  lemma {:induction false} ReadOne(s: seq<byte>, it: nat)
    requires IDENTIFIER <= it < |s|
    ensures s[IDENTIFIER..it + 1] == s[IDENTIFIER..it] + [s[it]]
  {
  }

  lemma {:induction false} ReadTwo(s: seq<byte>, it: nat)
    requires IDENTIFIER <= it && it + 1 < |s|
    ensures s[IDENTIFIER..it + 2] == s[IDENTIFIER..it] + [s[it], s[it + 1]]
  {
  }

  lemma {:induction false} Sound(s: seq<byte>, it: nat, st: State, rs: seq<Raw>) returns (r: Raw, trail: seq<Tok>)
    requires st.open != [] && Agree(st.open, rs, true) && it <= |s|
    requires it == IDENTIFIER + |SpellOpen(rs)| && s[IDENTIFIER..it] == SpellOpen(rs)
    requires Run(s, it, st).Some?
    ensures WellFormed(r) && Legal(trail) && s[IDENTIFIER..] == Spell(r) + SpellToks(trail)
    ensures Run(s, it, st) == Some(Parsed(r, IDENTIFIER))
    decreases |s| - it
  {
    hide Parsed, Head, WellFormed, Spell, Agree, SpellOpen, SpellToks, CloseTop, OpenChild;
    AgreeLength(st.open, rs, true);
    if s[it] == START {
      StartStep(st, rs, it, s[it + 1]);
      ReadTwo(s, it);
      r, trail := Sound(s, it + 2, OpenChild(st, it, s[it + 1]), rs + [Raw(s[it + 1], [], [])]);
    } else if s[it] == END {
      EndStep(st, rs, it);
      ReadOne(s, it);
      if |rs| == 1 {
        r := Last(rs);
        trail := SoundTail(s, it + 1, CloseTop(st, it));
        assert s[IDENTIFIER..] == s[IDENTIFIER..it + 1] + s[it + 1..];
      } else {
        r, trail := Sound(s, it + 1, CloseTop(st, it), Front(Front(rs)) + [AddKid(Last(Front(rs)), Last(rs))]);
      }
    } else {
      var t := if s[it] == ESCAPE then Escaped(s[it + 1]) else Plain(s[it]);
      TokStep(st.open, rs, t);
      if s[it] == ESCAPE {
        ReadTwo(s, it);
      } else {
        ReadOne(s, it);
      }
      r, trail := Sound(s, it + |SpellTok(t)|, st, Front(rs) + [AddTok(Last(rs), t)]);
    }
  }

  /** A file loads exactly when it is an identifier, one spelled node and plain trailing bytes. */
  lemma {:induction false} LoadsExactlyTheGrammar(s: seq<byte>)
    requires |s| > MINIMAL_SIZE
    ensures Load(s).Some? <==>
      exists r: Raw, trail: seq<Tok> :: WellFormed(r) && Legal(trail) && s[IDENTIFIER..] == Spell(r) + SpellToks(trail)
    ensures forall r: Raw, trail: seq<Tok> ::
      WellFormed(r) && Legal(trail) && s[IDENTIFIER..] == Spell(r) + SpellToks(trail) ==>
        Load(s) == Some(Parsed(r, IDENTIFIER))
  {
    forall r: Raw, trail: seq<Tok> | WellFormed(r) && Legal(trail) && s[IDENTIFIER..] == Spell(r) + SpellToks(trail)
      ensures Load(s) == Some(Parsed(r, IDENTIFIER))
    {
      assert s == s[..IDENTIFIER] + Spell(r) + SpellToks(trail);
      LoadsWhatIsSpelled(s[..IDENTIFIER], r, trail);
    }
    if Load(s).Some? {
      var kind := s[IDENTIFIER + 1];
      var rs := [Raw(kind, [], [])];
      FreshNode(kind, IDENTIFIER);
      assert Front(rs) == [] && SpellOpen(rs) == [START, kind];
      assert Front(Begin(s).open) == [] && Agree(Begin(s).open, rs, true);
      assert s[IDENTIFIER..IDENTIFIER + 2] == [START, kind];
      var r, trail := Sound(s, IDENTIFIER + 2, Begin(s), rs);
    }
  }

  // ---------- properties ----------

  // The bytes the properties stand for
  function Values(toks: seq<Tok>): seq<byte>
  {
    if toks == [] then [] else Values(Front(toks)) + [Last(toks).b]
  }

  // Dropping each escape byte that is not itself escaped; the flag carries over between bytes.
  function Unescape(bytes: seq<byte>): (seq<byte>, bool)
  {
    if bytes == [] then ([], false) else
      var (kept, lastEscaped) := Unescape(Front(bytes));
      if Last(bytes) == ESCAPE && !lastEscaped then (kept, true) else (kept + [Last(bytes)], false)
  }

  lemma {:induction false} UnescapeToks(toks: seq<Tok>)
    requires Legal(toks)
    ensures Unescape(SpellToks(toks)) == (Values(toks), false)
  {
    if toks != [] {
      var before, t := SpellToks(Front(toks)), Last(toks);
      assert t in toks;
      UnescapeToks(Front(toks));
      if t.Plain? {
        assert Front(before + [t.b]) == before;
      } else {
        assert Front(before + [ESCAPE, t.b]) == before + [ESCAPE];
        assert Front(before + [ESCAPE]) == before;
      }
    }
  }

  // The canonical writer escapes exactly the special bytes.
  function EscapeAll(bytes: seq<byte>): (toks: seq<Tok>)
    ensures Legal(toks) && Values(toks) == bytes
  {
    if bytes == [] then [] else
      var t := if Special(Last(bytes)) then Escaped(Last(bytes)) else Plain(Last(bytes));
      var toks := EscapeAll(Front(bytes));
      assert Front(toks + [t]) == toks;
      toks + [t]
  }

  lemma {:induction false} EscapedOnlyIfSpecial(bytes: seq<byte>, i: nat)
    requires i < |bytes|
    ensures |EscapeAll(bytes)| == |bytes| && (EscapeAll(bytes)[i].Escaped? <==> Special(bytes[i]))
  {
    hide Legal, Values, Special;
    if i < |bytes| - 1 {
      EscapedOnlyIfSpecial(Front(bytes), i);
    } else if i > 0 {
      EscapedOnlyIfSpecial(Front(bytes), i - 1);
    }
  }

  datatype Doc = Doc(kind: byte, props: seq<byte>, children: seq<Doc>)

  function Written(d: Doc): Raw
  {
    Raw(d.kind, EscapeAll(d.props), AllWritten(d.children))
  }

  function AllWritten(ds: seq<Doc>): seq<Kid>
  {
    if ds == [] then [] else AllWritten(Front(ds)) + [Kid(Written(Last(ds)), [])]
  }

  // Type, properties and children of a loaded node, with the properties as getProps delivers them
  function Reread(s: seq<byte>, n: ParsedNode): Doc
  {
    var props := if n.propsBegin <= n.propsEnd <= |s| then Unescape(s[n.propsBegin..n.propsEnd]).0 else [];
    Doc(n.kind, props, AllReread(s, n.children))
  }

  function AllReread(s: seq<byte>, ns: seq<ParsedNode>): seq<Doc>
  {
    if ns == [] then [] else AllReread(s, Front(ns)) + [Reread(s, Last(ns))]
  }

  lemma {:induction false} WrittenWellFormed(d: Doc)
    ensures WellFormed(Written(d))
    decreases d, 1
  {
    AllWrittenWellFormed(d.children);
  }

  lemma {:induction false} AllWrittenWellFormed(ds: seq<Doc>)
    ensures KidsWellFormed(AllWritten(ds))
    decreases ds
  {
    if ds != [] {
      AllWrittenWellFormed(Front(ds));
      WrittenWellFormed(Last(ds));
      KidsAppend(AllWritten(Front(ds)), Kid(Written(Last(ds)), []), 0);
    }
  }

  lemma {:induction false} RereadNode(s: seq<byte>, at: nat, d: Doc)
    requires At(s, at, Head(Written(d)))
    ensures Reread(s, Parsed(Written(d), at)) == d
    decreases d, 1
  {
    hide SpellToks, SpellKids, ParsedKids, Head, AllWritten, EscapeAll, Unescape, AllReread, Legal, Values;
    var r := Written(d);
    HeadParts(s, at, r);
    CanonicalProps(s, at + 2, d.props);
    RereadKids(s, at + 2 + |SpellToks(r.props)|, d.children);
  }

  lemma {:induction false} HeadParts(s: seq<byte>, at: nat, r: Raw)
    requires At(s, at, Head(r))
    ensures At(s, at + 2, SpellToks(r.props)) && At(s, at + 2 + |SpellToks(r.props)|, SpellKids(r.kids))
  {
    AtConcat(s, at, [START, r.kind] + SpellToks(r.props), SpellKids(r.kids));
    AtConcat(s, at, [START, r.kind], SpellToks(r.props));
  }

  lemma {:induction false} CanonicalProps(s: seq<byte>, at: nat, props: seq<byte>)
    requires At(s, at, SpellToks(EscapeAll(props)))
    ensures at + |SpellToks(EscapeAll(props))| <= |s|
    ensures Unescape(s[at..at + |SpellToks(EscapeAll(props))|]).0 == props
  {
    hide EscapeAll, SpellToks, Unescape, Values, Legal;
    UnescapeToks(EscapeAll(props));
  }

  lemma {:induction false} RereadKids(s: seq<byte>, at: nat, ds: seq<Doc>)
    requires At(s, at, SpellKids(AllWritten(ds)))
    ensures AllReread(s, ParsedKids(AllWritten(ds), at)) == ds
    decreases ds
  {
    hide At, Head, SpellKids, Spell, Parsed, ParsedKids, Written, Reread, AllReread;
    if ds == [] {
      NoneReread(s, at);
    } else {
      var kids, k := AllWritten(Front(ds)), Kid(Written(Last(ds)), []);
      var mid := at + |SpellKids(kids)|;
      assert AllWritten(ds) == kids + [k];
      KidsAppend(kids, k, at);
      AtConcat3(s, at, SpellKids(kids), Spell(k.node), SpellToks(k.gap));
      SpellParts(s, mid, k.node);
      RereadKids(s, at, Front(ds));
      RereadNode(s, mid, Last(ds));
      RereadAppend(s, ParsedKids(kids, at), Parsed(k.node, mid));
    }
  }

  lemma {:induction false} NoneReread(s: seq<byte>, at: nat)
    ensures AllReread(s, ParsedKids(AllWritten([]), at)) == []
  {
    KidsSpelled([], at);
  }

  lemma {:induction false} SpellParts(s: seq<byte>, at: nat, r: Raw)
    requires At(s, at, Spell(r))
    ensures At(s, at, Head(r)) && At(s, at + |Head(r)|, [END])
  {
    AtConcat(s, at, Head(r), [END]);
  }

  lemma {:induction false} RereadAppend(s: seq<byte>, ns: seq<ParsedNode>, n: ParsedNode)
    ensures AllReread(s, ns + [n]) == AllReread(s, ns) + [Reread(s, n)]
  {
    assert Front(ns + [n]) == ns;
  }

  /** Writing a document and loading it gives back its shape, types and unescaped properties. */
  lemma {:induction false} RoundTrip(ident: seq<byte>, d: Doc)
    requires |ident| == IDENTIFIER && |ident + Spell(Written(d))| > MINIMAL_SIZE
    ensures var s := ident + Spell(Written(d));
      Load(s).Some? && Reread(s, Load(s).value) == d
  {
    hide Written, Parsed, Reread, Load;
    var s, r := ident + Spell(Written(d)), Written(d);
    WrittenWellFormed(d);
    assert s + SpellToks([]) == s;
    LoadsWhatIsSpelled(ident, r, []);
    assert At(s, IDENTIFIER, Spell(r));
    AtConcat(s, IDENTIFIER, Head(r), [END]);
    RereadNode(s, IDENTIFIER, d);
  }

  // Every properties range in the tree is whole tokens: none ends inside an escape pair.
  ghost predicate WholeTokens(s: seq<byte>, n: ParsedNode)
  {
    && n.propsBegin <= n.propsEnd <= |s|
    && (exists toks: seq<Tok> :: Legal(toks) && s[n.propsBegin..n.propsEnd] == SpellToks(toks))
    && AllWholeTokens(s, n.children)
  }

  ghost predicate AllWholeTokens(s: seq<byte>, ns: seq<ParsedNode>)
  {
    ns == [] || (AllWholeTokens(s, Front(ns)) && WholeTokens(s, Last(ns)))
  }

  lemma {:induction false} NodeWholeTokens(s: seq<byte>, at: nat, r: Raw)
    requires WellFormed(r) && At(s, at, Head(r))
    ensures WholeTokens(s, Parsed(r, at))
    decreases r, 1
  {
    hide SpellToks, SpellKids, ParsedKids, Head;
    HeadParts(s, at, r);
    KidsWholeTokens(s, at + 2 + |SpellToks(r.props)|, r.kids);
  }

  lemma {:induction false} KidsWholeTokens(s: seq<byte>, at: nat, kids: seq<Kid>)
    requires KidsWellFormed(kids) && At(s, at, SpellKids(kids))
    ensures AllWholeTokens(s, ParsedKids(kids, at))
    decreases kids
  {
    hide At, Head, Spell, Parsed, WholeTokens, SpellToks;
    if kids != [] {
      var mid := at + |SpellKids(Front(kids))|;
      LastKidSpelled(s, at, kids);
      SpellParts(s, mid, Last(kids).node);
      KidsWholeTokens(s, at, Front(kids));
      NodeWholeTokens(s, mid, Last(kids).node);
      var ns, n := ParsedKids(Front(kids), at), Parsed(Last(kids).node, mid);
      assert Front(ns + [n]) == ns && Last(ns + [n]) == n;
    }
  }

  lemma {:induction false} LoadedWholeTokens(s: seq<byte>)
    requires |s| > MINIMAL_SIZE && Load(s).Some?
    ensures WholeTokens(s, Load(s).value)
  {
    hide Load, WellFormed, Spell, SpellToks, Parsed, WholeTokens;
    LoadsExactlyTheGrammar(s);
    var r: Raw, trail: seq<Tok> :| WellFormed(r) && Legal(trail) && s[IDENTIFIER..] == Spell(r) + SpellToks(trail);
    assert s[IDENTIFIER..IDENTIFIER + |Spell(r)|] == s[IDENTIFIER..][..|Spell(r)|] == Spell(r);
    SpellParts(s, IDENTIFIER, r);
    NodeWholeTokens(s, IDENTIFIER, r);
  }
}
