/**
 `FieldExpander#expand`: a view, a type or an attribute plus a field mask
 become a selection tree. Each finished (node, mask) result is remembered in
 `history`; a pair re-entered while it is on the `stack` answers with its
 in-progress history entry, so the tree closes back on its ancestor.

 This is the expander with two repairs (see `FieldExpanderAsWritten` for
 the code as written):
 - stack discipline: a frame removes from the stack only the pair it pushed
   itself. The stack is a parameter, so leaving a frame restores it whether
   the frame succeeded or raised;
 - member attributes: `expand_with_member_attribute` answers the array it
   recorded in `history`, not a second array with the same members, so
   equal requests share one tree.
 */
module FieldExpander {
  import opened Common
  import opened Schema
  import opened Masks
  import opened Selection

  /** What `expand` can be handed: a type, a View/CollectionView, or an `Attributor::Attribute`. */
  datatype Node = TypeNode(t: TypeId) | ViewNode(v: ViewId) | AttrNode(a: Attribute)

  /** The key of `stack` and `history`: `stack[object]` and `history[object]` hold masks per object. */
  datatype Pair = Pair(node: Node, mask: Mask)

  /** Which request an arena node was built for: a whole pair, or the hash inside a CollectionView's array. */
  datatype Label = Whole(p: Pair) | Body(v: ViewId, mask: Mask)

  datatype ExpError =
    | CircularExpansion(node: Node, mask: Mask)   // re-entry of a pair with no history entry
    | MaskShape(node: Node, mask: Mask)           // an array or falsy mask reached `fields.key?`

  /**
   One expander instance: `history`, the arena of built nodes, the request
   each node was built for, and the next free handle.
   */
  datatype ExpState = ExpState(
    history: map<Pair, Sel>,
    arena: Arena,
    origin: map<Handle, Label>,
    next: Handle)

  function EmptyState(): ExpState {
    ExpState(map[], map[], map[], 0)
  }

  // ---------------------------------------------------------------------
  // Children of a node and the mask rules
  // ---------------------------------------------------------------------

  /** A struct's attributes as expansion children: each is expanded through its type. */
  function AttrChildren(attrs: seq<Attribute>): (r: seq<(Name, Node)>)
    ensures |r| == |attrs|
    ensures forall i :: 0 <= i < |attrs| ==> r[i] == (attrs[i].name, TypeNode(attrs[i].typ))
  {
    if attrs == [] then [] else [(attrs[0].name, TypeNode(attrs[0].typ))] + AttrChildren(attrs[1..])
  }

  function EntryNode(e: Entry): Node {
    match e
    case Raw(a) => AttrNode(a)
    case Nested(w) => ViewNode(w)
  }

  /** A view's contents as expansion children: each entry is expanded as it is stored. */
  function ViewChildren(contents: seq<(Name, Entry)>): (r: seq<(Name, Node)>)
    ensures |r| == |contents|
    ensures forall i :: 0 <= i < |contents| ==> r[i] == (contents[i].0, EntryNode(contents[i].1))
  {
    if contents == [] then [] else [(contents[0].0, EntryNode(contents[0].1))] + ViewChildren(contents[1..])
  }

  predicate Wanted(m: Mask, name: Name) {
    m.All? || (m.Fields? && HasKey(m.entries, name))
  }

  /** `attributes.select { |k, _| fields.key?(k) }`, or every child under `true`. */
  function Kept(children: seq<(Name, Node)>, m: Mask): (r: seq<(Name, Node)>)
    ensures forall x :: x in r ==> x in children
    ensures |r| <= |children|
  {
    if children == [] then []
    else if Wanted(m, children[0].0) then [children[0]] + Kept(children[1..], m)
    else Kept(children[1..], m)
  }

  /**
   The selection step of `expand_fields`: an array or a falsy mask has no
   `key?`, so it fails as soon as there is a child to test; over no children
   it selects nothing.
   */
  function SelectFields(children: seq<(Name, Node)>, m: Mask): Result<seq<(Name, Node)>, ()> {
    if m.Wrapped? || m.Falsy? then (if children == [] then Ok([]) else Err(()))
    else Ok(Kept(children, m))
  }

  // ---------------------------------------------------------------------
  // The finite universe of requests, which bounds the stack
  // ---------------------------------------------------------------------

  function AttrNodes(env: Env): set<Node> {
    set v, i | v in env.views && 0 <= i < |env.views[v].contents| && env.views[v].contents[i].1.Raw?
      :: AttrNode(env.views[v].contents[i].1.attr)
  }

  function Nodes(env: Env): set<Node> {
    (set t | t in env.types :: TypeNode(t)) + (set v | v in env.views :: ViewNode(v)) + AttrNodes(env)
  }

  function Universe(env: Env, root: Mask): set<Pair> {
    set n, m | n in Nodes(env) && m in SubMasks(root) :: Pair(n, m)
  }

  predicate NodeOk(env: Env, n: Node) {
    match n
    case TypeNode(t) => t in env.types
    case ViewNode(v) => v in env.views
    case AttrNode(a) => a.typ in env.types && n in AttrNodes(env)
  }

  lemma NodesOk(env: Env, n: Node)
    requires WfEnv(env) && n in Nodes(env)
    ensures NodeOk(env, n)
  {
    if n.AttrNode? {
      var v, i :| v in env.views && 0 <= i < |env.views[v].contents| && env.views[v].contents[i].1.Raw?
        && n == AttrNode(env.views[v].contents[i].1.attr);
      assert WfEntry(env, env.views[v].contents[i].1);
    }
  }

  lemma StructChildrenIn(env: Env, t: TypeId)
    requires WfEnv(env) && t in env.types && env.types[t].Struct?
    ensures forall x :: x in AttrChildren(env.types[t].attrs) ==> x.1 in Nodes(env)
  {
    var attrs := env.types[t].attrs;
    assert WfType(env, env.types[t]);
    forall x | x in AttrChildren(attrs) ensures x.1 in Nodes(env) {
      var i :| 0 <= i < |AttrChildren(attrs)| && AttrChildren(attrs)[i] == x;
      assert attrs[i].typ in env.types;
    }
  }

  lemma ViewChildrenIn(env: Env, v: ViewId)
    requires WfEnv(env) && v in env.views
    ensures forall x :: x in ViewChildren(env.views[v].contents) ==> x.1 in Nodes(env)
  {
    var cs := env.views[v].contents;
    assert WfView(env, env.views[v]);
    forall x | x in ViewChildren(cs) ensures x.1 in Nodes(env) {
      var i :| 0 <= i < |ViewChildren(cs)| && ViewChildren(cs)[i] == x;
      assert WfEntry(env, cs[i].1);
      match cs[i].1
      case Raw(a) =>
        assert AttrNode(a) in AttrNodes(env);
      case Nested(w) =>
    }
  }

  /** Pushing a pair of the universe that is not yet on the stack shrinks what is left. */
  lemma PushShrinks(env: Env, root: Mask, stack: set<Pair>, p: Pair)
    requires p.node in Nodes(env) && p.mask in SubMasks(root) && p !in stack
    ensures p in Universe(env, root)
    ensures |Universe(env, root) - (stack + {p})| < |Universe(env, root) - stack|
  {
    var u := Universe(env, root);
    assert p in u;
    var rest := u - stack;
    assert u - (stack + {p}) == rest - {p};
    assert rest == (rest - {p}) + {p};
  }

  // ---------------------------------------------------------------------
  // State steps
  // ---------------------------------------------------------------------

  /** `history[object][fields] = {}` (or `[]`): the in-progress entry for a pair. */
  function Open(st: ExpState, p: Pair, placeholder: TreeNode): ExpState {
    ExpState(st.history[p := SelRef(st.next)], st.arena[st.next := placeholder],
             st.origin[st.next := Whole(p)], st.next + 1)
  }

  /** `merge!` / `concat` / `<<` into the in-progress entry: its node becomes the finished one. */
  function Fill(st: ExpState, h: Handle, node: TreeNode): ExpState {
    st.(arena := st.arena[h := node])
  }

  // ---------------------------------------------------------------------
  // What a built node means, and the invariant of an expander instance
  // ---------------------------------------------------------------------

  /** An attribute is expanded through its type (`expand_type(object.type, fields)`). */
  function Canon(p: Pair): Pair {
    match p.node
    case AttrNode(a) => Pair(TypeNode(a.typ), p.mask)
    case _ => p
  }

  /** Requests that expand to plain `true`: a type with neither probe, or a struct with no attributes. */
  predicate Trivial(env: Env, p: Pair) {
    var c := Canon(p);
    && c.node.TypeNode? && c.node.t in env.types
    && (env.types[c.node.t].Primitive? || (env.types[c.node.t].Struct? && |env.types[c.node.t].attrs| == 0))
  }

  /** `s` is a selection built for request `p`: `true` when `p` is trivial, else a node labelled with `p`. */
  predicate Denotes(env: Env, origin: map<Handle, Label>, s: Sel, p: Pair) {
    if Trivial(env, p) then s == SelTrue
    else s.SelRef? && s.h in origin && origin[s.h] == Whole(Canon(p))
  }

  /** A hash node whose keys are the kept children, in order, each holding a selection for its sub-request. */
  predicate MapMatches(env: Env, origin: map<Handle, Label>, node: TreeNode, kept: seq<(Name, Node)>, m: Mask) {
    && node.MapNode? && |node.entries| == |kept|
    && forall i :: 0 <= i < |kept| ==>
         && node.entries[i].0 == kept[i].0
         && Denotes(env, origin, node.entries[i].1, Pair(kept[i].1, SubMaskFor(m, kept[i].0)))
  }

  /** The one-level shape `expand` gives to the request a node was built for. */
  predicate Built(env: Env, origin: map<Handle, Label>, node: TreeNode, l: Label) {
    match l
    case Body(v, m) =>
      && v in env.views
      && SelectFields(ViewChildren(env.views[v].contents), m).Ok?
      && MapMatches(env, origin, node, SelectFields(ViewChildren(env.views[v].contents), m).value, m)
    case Whole(Pair(TypeNode(t), m)) =>
      && t in env.types
      && (match env.types[t]
          case Primitive => false
          case Collection(member) =>
            && node.ListNode? && |node.items| == 1
            && Denotes(env, origin, node.items[0], Pair(TypeNode(member), Unwrap(m)))
          case Struct(attrs, _) =>
            && |attrs| > 0
            && SelectFields(AttrChildren(attrs), m).Ok?
            && MapMatches(env, origin, node, SelectFields(AttrChildren(attrs), m).value, m))
    case Whole(Pair(ViewNode(v), m)) =>
      && v in env.views
      && SelectFields(ViewChildren(env.views[v].contents), m).Ok?
      && if env.views[v].kind == Standard
         then MapMatches(env, origin, node, SelectFields(ViewChildren(env.views[v].contents), m).value, m)
         else
           && node.ListNode? && |node.items| == 1 && node.items[0].SelRef?
           && node.items[0].h in origin && origin[node.items[0].h] == Body(v, m)
    case Whole(Pair(AttrNode(_), _)) => false
  }

  /**
   The invariant of an expander instance. Every node except the in-progress
   ones (`pending`) has the shape of its request; every history entry is a
   selection for its pair; and a type's pair is built at most once, so every
   node built for it is the one history holds.
   */
  predicate Good(env: Env, st: ExpState, pending: set<Handle>) {
    && st.arena.Keys == st.origin.Keys
    && (forall h :: h in st.arena ==> h < st.next)
    && pending <= st.arena.Keys
    && (forall h :: h in st.arena && h !in pending ==> Built(env, st.origin, st.arena[h], st.origin[h]))
    && (forall p :: p in st.history ==>
          p == Canon(p) && !Trivial(env, p) && Denotes(env, st.origin, st.history[p], p))
    && (forall h :: h in st.origin && st.origin[h].Whole? && st.origin[h].p.node.TypeNode? ==>
          st.origin[h].p in st.history && st.history[st.origin[h].p] == SelRef(h))
  }

  /** A later state of the same instance: nothing built is changed, history only grows, type entries stay. */
  predicate Extends(a: ExpState, b: ExpState) {
    && a.next <= b.next
    && (forall h :: h in a.arena ==> h in b.arena && b.arena[h] == a.arena[h])
    && (forall h :: h in a.origin ==> h in b.origin && b.origin[h] == a.origin[h])
    && (forall p :: p in a.history ==> p in b.history && (p.node.TypeNode? ==> b.history[p] == a.history[p]))
  }

  lemma GoodEmpty(env: Env)
    ensures Good(env, EmptyState(), {})
  {
  }

  lemma DenotesMono(env: Env, o1: map<Handle, Label>, o2: map<Handle, Label>, s: Sel, p: Pair)
    requires forall h :: h in o1 ==> h in o2 && o2[h] == o1[h]
    requires Denotes(env, o1, s, p)
    ensures Denotes(env, o2, s, p)
  {
  }

  lemma MapMatchesMono(env: Env, o1: map<Handle, Label>, o2: map<Handle, Label>, node: TreeNode, kept: seq<(Name, Node)>, m: Mask)
    requires forall h :: h in o1 ==> h in o2 && o2[h] == o1[h]
    requires MapMatches(env, o1, node, kept, m)
    ensures MapMatches(env, o2, node, kept, m)
  {
    forall i | 0 <= i < |kept|
      ensures Denotes(env, o2, node.entries[i].1, Pair(kept[i].1, SubMaskFor(m, kept[i].0)))
    {
      DenotesMono(env, o1, o2, node.entries[i].1, Pair(kept[i].1, SubMaskFor(m, kept[i].0)));
    }
  }

  lemma BuiltMono(env: Env, o1: map<Handle, Label>, o2: map<Handle, Label>, node: TreeNode, l: Label)
    requires forall h :: h in o1 ==> h in o2 && o2[h] == o1[h]
    requires Built(env, o1, node, l)
    ensures Built(env, o2, node, l)
  {
    match l
    case Body(v, m) =>
      MapMatchesMono(env, o1, o2, node, SelectFields(ViewChildren(env.views[v].contents), m).value, m);
    case Whole(Pair(TypeNode(t), m)) =>
      if env.types[t].Struct? {
        MapMatchesMono(env, o1, o2, node, SelectFields(AttrChildren(env.types[t].attrs), m).value, m);
      }
    case Whole(Pair(ViewNode(v), m)) =>
      if env.views[v].kind == Standard {
        MapMatchesMono(env, o1, o2, node, SelectFields(ViewChildren(env.views[v].contents), m).value, m);
      }
    case Whole(Pair(AttrNode(_), _)) =>
  }

  lemma ExtendsTrans(a: ExpState, b: ExpState, c: ExpState)
    requires Extends(a, b) && Extends(b, c)
    ensures Extends(a, c)
  {
  }

  /** Opening an entry for a fresh request keeps the invariant, with the new node pending. */
  lemma OpenGood(env: Env, st: ExpState, pending: set<Handle>, p: Pair, placeholder: TreeNode)
    requires Good(env, st, pending)
    requires p == Canon(p) && !Trivial(env, p)
    requires p.node.TypeNode? ==> p !in st.history
    ensures Good(env, Open(st, p, placeholder), pending + {st.next})
    ensures Extends(st, Open(st, p, placeholder))
  {
    var st1 := Open(st, p, placeholder);
    assert st.next !in st.origin;
    OpenBuilt(env, st, pending, p, placeholder);
    OpenHistory(env, st, pending, p, placeholder);
    OpenOrigin(env, st, pending, p, placeholder);
  }

  lemma OpenBuilt(env: Env, st: ExpState, pending: set<Handle>, p: Pair, placeholder: TreeNode)
    requires Good(env, st, pending)
    ensures var st1 := Open(st, p, placeholder);
      forall k :: k in st1.arena && k !in pending + {st.next} ==> Built(env, st1.origin, st1.arena[k], st1.origin[k])
  {
    var st1 := Open(st, p, placeholder);
    assert st.next !in st.origin;
    forall k | k in st1.arena && k !in pending + {st.next}
      ensures Built(env, st1.origin, st1.arena[k], st1.origin[k])
    {
      BuiltMono(env, st.origin, st1.origin, st.arena[k], st.origin[k]);
    }
  }

  lemma OpenHistory(env: Env, st: ExpState, pending: set<Handle>, p: Pair, placeholder: TreeNode)
    requires Good(env, st, pending)
    requires p == Canon(p) && !Trivial(env, p)
    ensures var st1 := Open(st, p, placeholder);
      forall q :: q in st1.history ==> q == Canon(q) && !Trivial(env, q) && Denotes(env, st1.origin, st1.history[q], q)
  {
    var st1 := Open(st, p, placeholder);
    assert st.next !in st.origin;
    forall q | q in st1.history
      ensures q == Canon(q) && !Trivial(env, q) && Denotes(env, st1.origin, st1.history[q], q)
    {
      if q != p {
        DenotesMono(env, st.origin, st1.origin, st.history[q], q);
      }
    }
  }

  lemma OpenOrigin(env: Env, st: ExpState, pending: set<Handle>, p: Pair, placeholder: TreeNode)
    requires Good(env, st, pending)
    requires p.node.TypeNode? ==> p !in st.history
    ensures var st1 := Open(st, p, placeholder);
      forall k :: k in st1.origin && st1.origin[k].Whole? && st1.origin[k].p.node.TypeNode? ==>
        st1.origin[k].p in st1.history && st1.history[st1.origin[k].p] == SelRef(k)
  {
    var st1 := Open(st, p, placeholder);
    var h := st.next;
    assert h !in st.origin;
    forall k | k in st1.origin && st1.origin[k].Whole? && st1.origin[k].p.node.TypeNode?
      ensures st1.origin[k].p in st1.history && st1.history[st1.origin[k].p] == SelRef(k)
    {
      if k != h {
        assert st.origin[k].p in st.history;
        if st.origin[k].p == p {
          assert false;
        }
      }
    }
  }

  /** Finishing a pending node with the shape of its request keeps the invariant, without it pending. */
  lemma FillGood(env: Env, st: ExpState, pending: set<Handle>, h: Handle, node: TreeNode)
    requires Good(env, st, pending + {h}) && h in st.arena
    requires Built(env, st.origin, node, st.origin[h])
    ensures Good(env, Fill(st, h, node), pending)
  {
  }

  /** Writing a node that did not exist at `a` keeps `Fill` a later state of `a`. */
  lemma FillExtends(a: ExpState, b: ExpState, h: Handle, node: TreeNode)
    requires Extends(a, b) && h !in a.arena && h in b.arena
    ensures Extends(a, Fill(b, h, node))
  {
  }

  /** The hash inside a CollectionView's array: a fresh node, not recorded in `history`. */
  function AddBody(st: ExpState, v: ViewId, m: Mask, entries: seq<(Name, Sel)>): ExpState {
    ExpState(st.history, st.arena[st.next := MapNode(entries)], st.origin[st.next := Body(v, m)], st.next + 1)
  }

  lemma AddBodyGood(env: Env, st: ExpState, pending: set<Handle>, v: ViewId, m: Mask, entries: seq<(Name, Sel)>)
    requires Good(env, st, pending) && v in env.views
    requires SelectFields(ViewChildren(env.views[v].contents), m).Ok?
    requires MapMatches(env, st.origin, MapNode(entries), SelectFields(ViewChildren(env.views[v].contents), m).value, m)
    ensures Good(env, AddBody(st, v, m, entries), pending)
    ensures Extends(st, AddBody(st, v, m, entries))
  {
    var st1 := AddBody(st, v, m, entries);
    assert st.next !in st.origin;
    forall k | k in st1.arena && k !in pending
      ensures Built(env, st1.origin, st1.arena[k], st1.origin[k])
    {
      if k == st.next {
        MapMatchesMono(env, st.origin, st1.origin, MapNode(entries), SelectFields(ViewChildren(env.views[v].contents), m).value, m);
      } else {
        BuiltMono(env, st.origin, st1.origin, st.arena[k], st.origin[k]);
      }
    }
    forall q | q in st1.history
      ensures Denotes(env, st1.origin, st1.history[q], q)
    {
      DenotesMono(env, st.origin, st1.origin, st.history[q], q);
    }
  }

  lemma MapMatchesCons(env: Env, origin: map<Handle, Label>, name: Name, s: Sel, rest: seq<(Name, Sel)>,
                       kept: seq<(Name, Node)>, m: Mask)
    requires kept != [] && kept[0].0 == name
    requires Denotes(env, origin, s, Pair(kept[0].1, SubMaskFor(m, name)))
    requires MapMatches(env, origin, MapNode(rest), kept[1..], m)
    ensures MapMatches(env, origin, MapNode([(name, s)] + rest), kept, m)
  {
    var es := [(name, s)] + rest;
    forall i | 0 <= i < |kept|
      ensures es[i].0 == kept[i].0 && Denotes(env, origin, es[i].1, Pair(kept[i].1, SubMaskFor(m, kept[i].0)))
    {
      if i > 0 {
        assert es[i] == rest[i - 1] && kept[i] == kept[1..][i - 1];
      }
    }
  }

  /** Closing a pending node with the shape of its request: the request then denotes that node. */
  lemma Finish(env: Env, st: ExpState, pending: set<Handle>, p: Pair, placeholder: TreeNode, st2: ExpState, node: TreeNode)
    requires Good(env, st, pending) && p == Canon(p) && !Trivial(env, p)
    requires p.node.TypeNode? ==> p !in st.history
    requires Extends(Open(st, p, placeholder), st2) && Good(env, st2, pending + {st.next})
    requires Built(env, st2.origin, node, Whole(p))
    ensures Good(env, Fill(st2, st.next, node), pending)
    ensures Extends(st, Fill(st2, st.next, node))
    ensures Denotes(env, Fill(st2, st.next, node).origin, SelRef(st.next), p)
  {
    OpenGood(env, st, pending, p, placeholder);
    ExtendsTrans(st, Open(st, p, placeholder), st2);
    FillGood(env, st2, pending, st.next, node);
    FillExtends(st, st2, st.next, node);
  }

  lemma FinishCollection(env: Env, st: ExpState, pending: set<Handle>, t: TypeId, m: Mask, s: Sel, st2: ExpState)
    requires Good(env, st, pending) && t in env.types && env.types[t].Collection?
    requires Pair(TypeNode(t), m) !in st.history
    requires Extends(Open(st, Pair(TypeNode(t), m), ListNode([])), st2) && Good(env, st2, pending + {st.next})
    requires Denotes(env, st2.origin, s, Pair(TypeNode(env.types[t].member), Unwrap(m)))
    ensures Good(env, Fill(st2, st.next, ListNode([s])), pending)
    ensures Extends(st, Fill(st2, st.next, ListNode([s])))
    ensures Denotes(env, Fill(st2, st.next, ListNode([s])).origin, SelRef(st.next), Pair(TypeNode(t), m))
  {
    Finish(env, st, pending, Pair(TypeNode(t), m), ListNode([]), st2, ListNode([s]));
  }

  lemma FinishStruct(env: Env, st: ExpState, pending: set<Handle>, t: TypeId, m: Mask, es: seq<(Name, Sel)>, st2: ExpState)
    requires Good(env, st, pending) && t in env.types && env.types[t].Struct? && |env.types[t].attrs| > 0
    requires Pair(TypeNode(t), m) !in st.history
    requires SelectFields(AttrChildren(env.types[t].attrs), m).Ok?
    requires Extends(Open(st, Pair(TypeNode(t), m), MapNode([])), st2) && Good(env, st2, pending + {st.next})
    requires MapMatches(env, st2.origin, MapNode(es), SelectFields(AttrChildren(env.types[t].attrs), m).value, m)
    ensures Good(env, Fill(st2, st.next, MapNode(es)), pending)
    ensures Extends(st, Fill(st2, st.next, MapNode(es)))
    ensures Denotes(env, Fill(st2, st.next, MapNode(es)).origin, SelRef(st.next), Pair(TypeNode(t), m))
  {
    Finish(env, st, pending, Pair(TypeNode(t), m), MapNode([]), st2, MapNode(es));
  }

  lemma FinishView(env: Env, st: ExpState, pending: set<Handle>, v: ViewId, m: Mask, placeholder: TreeNode,
                   es: seq<(Name, Sel)>, st2: ExpState)
    requires Good(env, st, pending) && v in env.views && env.views[v].kind == Standard
    requires SelectFields(ViewChildren(env.views[v].contents), m).Ok?
    requires Extends(Open(st, Pair(ViewNode(v), m), placeholder), st2) && Good(env, st2, pending + {st.next})
    requires MapMatches(env, st2.origin, MapNode(es), SelectFields(ViewChildren(env.views[v].contents), m).value, m)
    ensures Good(env, Fill(st2, st.next, MapNode(es)), pending)
    ensures Extends(st, Fill(st2, st.next, MapNode(es)))
    ensures Denotes(env, Fill(st2, st.next, MapNode(es)).origin, SelRef(st.next), Pair(ViewNode(v), m))
  {
    Finish(env, st, pending, Pair(ViewNode(v), m), placeholder, st2, MapNode(es));
  }

  lemma FinishCollectionView(env: Env, st: ExpState, pending: set<Handle>, v: ViewId, m: Mask, placeholder: TreeNode,
                             es: seq<(Name, Sel)>, st2: ExpState)
    requires Good(env, st, pending) && v in env.views && env.views[v].kind == CollectionKind
    requires SelectFields(ViewChildren(env.views[v].contents), m).Ok?
    requires Extends(Open(st, Pair(ViewNode(v), m), placeholder), st2) && Good(env, st2, pending + {st.next})
    requires MapMatches(env, st2.origin, MapNode(es), SelectFields(ViewChildren(env.views[v].contents), m).value, m)
    ensures Good(env, Fill(AddBody(st2, v, m, es), st.next, ListNode([SelRef(st2.next)])), pending)
    ensures Extends(st, Fill(AddBody(st2, v, m, es), st.next, ListNode([SelRef(st2.next)])))
    ensures Denotes(env, AddBody(st2, v, m, es).origin, SelRef(st.next), Pair(ViewNode(v), m))
  {
    var p := Pair(ViewNode(v), m);
    AddBodyGood(env, st2, pending + {st.next}, v, m, es);
    ExtendsTrans(Open(st, p, placeholder), st2, AddBody(st2, v, m, es));
    Finish(env, st, pending, p, placeholder, AddBody(st2, v, m, es), ListNode([SelRef(st2.next)]));
  }

  // ---------------------------------------------------------------------
  // The expander
  // ---------------------------------------------------------------------

  /** `expand(object, fields)`: the stack guard, then dispatch on what `object` is. */
  function Expand(env: Env, root: Mask, stack: set<Pair>, st: ExpState, node: Node, mask: Mask,
                  ghost pending: set<Handle>)
    : (res: (Result<Sel, ExpError>, ExpState))
    requires WfEnv(env) && node in Nodes(env) && mask in SubMasks(root) && stack <= Universe(env, root)
    ensures Good(env, st, pending) && res.0.Ok? ==>
      && Good(env, res.1, pending) && Extends(st, res.1)
      && Denotes(env, res.1.origin, res.0.value, Pair(node, mask))
    decreases |Universe(env, root) - stack|, 0, 0
  {
    var p := Pair(node, mask);
    if p in stack then
      if p in st.history then (Ok(st.history[p]), st) else (Err(CircularExpansion(node, mask)), st)
    else
      PushShrinks(env, root, stack, p);
      NodesOk(env, node);
      match node
      case ViewNode(v) => ExpandView(env, root, stack + {p}, st, v, mask, pending)
      case TypeNode(t) => ExpandType(env, root, stack + {p}, st, t, mask, pending)
      case AttrNode(a) => ExpandType(env, root, stack + {p}, st, a.typ, mask, pending)
  }

  /** `expand_type` and `expand_with_member_attribute`. */
  function ExpandType(env: Env, root: Mask, stack: set<Pair>, st: ExpState, t: TypeId, mask: Mask,
                      ghost pending: set<Handle>)
    : (res: (Result<Sel, ExpError>, ExpState))
    requires WfEnv(env) && t in env.types && mask in SubMasks(root) && stack <= Universe(env, root)
    ensures Good(env, st, pending) && res.0.Ok? ==>
      && Good(env, res.1, pending) && Extends(st, res.1)
      && Denotes(env, res.1.origin, res.0.value, Pair(TypeNode(t), mask))
    decreases |Universe(env, root) - stack|, 2, 0
  {
    var p := Pair(TypeNode(t), mask);
    assert WfType(env, env.types[t]);
    match env.types[t]
    case Primitive => (Ok(SelTrue), st)
    case Collection(member) =>
      if p in st.history then (Ok(st.history[p]), st)
      else
        var h := st.next;
        var st1 := Open(st, p, ListNode([]));
        DerivedMasksIn(root, mask, "");
        var (r, st2) := Expand(env, root, stack, st1, TypeNode(member), Unwrap(mask), pending + {h});
        if r.Err? then (r, st2)
        else
          var fin := Fill(st2, h, ListNode([r.value]));
          assert Good(env, st, pending) ==> Good(env, fin, pending) && Extends(st, fin) && Denotes(env, fin.origin, SelRef(h), p) by {
            if Good(env, st, pending) {
              OpenGood(env, st, pending, p, ListNode([]));
              FinishCollection(env, st, pending, t, mask, r.value, st2);
            }
          }
          (Ok(SelRef(h)), fin)
    case Struct(attrs, _) =>
      if |attrs| == 0 then (Ok(SelTrue), st)
      else if p in st.history then (Ok(st.history[p]), st)
      else
        var h := st.next;
        var st1 := Open(st, p, MapNode([]));
        match SelectFields(AttrChildren(attrs), mask)
        case Err(_) => (Err(MaskShape(TypeNode(t), mask)), st1)
        case Ok(kept) =>
          StructChildrenIn(env, t);
          var (r, st2) := ExpandFields(env, root, stack, st1, kept, mask, pending + {h});
          if r.Err? then (Err(r.error), st2)
          else
            var fin := Fill(st2, h, MapNode(r.value));
            assert Good(env, st, pending) ==> Good(env, fin, pending) && Extends(st, fin) && Denotes(env, fin.origin, SelRef(h), p) by {
              if Good(env, st, pending) {
                OpenGood(env, st, pending, p, MapNode([]));
                FinishStruct(env, st, pending, t, mask, r.value, st2);
              }
            }
            (Ok(SelRef(h)), fin)
  }

  /** `expand_view`: a hash over the view's contents, wrapped in an array for a CollectionView. */
  function ExpandView(env: Env, root: Mask, stack: set<Pair>, st: ExpState, v: ViewId, mask: Mask,
                      ghost pending: set<Handle>)
    : (res: (Result<Sel, ExpError>, ExpState))
    requires WfEnv(env) && v in env.views && mask in SubMasks(root) && stack <= Universe(env, root)
    ensures Good(env, st, pending) && res.0.Ok? ==>
      && Good(env, res.1, pending) && Extends(st, res.1)
      && Denotes(env, res.1.origin, res.0.value, Pair(ViewNode(v), mask))
    decreases |Universe(env, root) - stack|, 2, 0
  {
    var vd := env.views[v];
    var p := Pair(ViewNode(v), mask);
    var h := st.next;
    var placeholder := if vd.kind == Standard then MapNode([]) else ListNode([]);
    var st1 := Open(st, p, placeholder);
    match SelectFields(ViewChildren(vd.contents), mask)
    case Err(_) => (Err(MaskShape(ViewNode(v), mask)), st1)
    case Ok(kept) =>
      ViewChildrenIn(env, v);
      var (r, st2) := ExpandFields(env, root, stack, st1, kept, mask, pending + {h});
      if r.Err? then (Err(r.error), st2)
      else if vd.kind == Standard then
        var fin := Fill(st2, h, MapNode(r.value));
        assert Good(env, st, pending) ==> Good(env, fin, pending) && Extends(st, fin) && Denotes(env, fin.origin, SelRef(h), p) by {
          if Good(env, st, pending) {
            OpenGood(env, st, pending, p, placeholder);
            FinishView(env, st, pending, v, mask, placeholder, r.value, st2);
          }
        }
        (Ok(SelRef(h)), fin)
      else
        var st4 := Fill(AddBody(st2, v, mask, r.value), h, ListNode([SelRef(st2.next)]));
        assert Good(env, st, pending) ==> Good(env, st4, pending) && Extends(st, st4) && Denotes(env, st4.origin, SelRef(h), p) by {
          if Good(env, st, pending) {
            OpenGood(env, st, pending, p, placeholder);
            FinishCollectionView(env, st, pending, v, mask, placeholder, r.value, st2);
          }
        }
        (Ok(SelRef(h)), st4)
  }

  /** The loop of `expand_fields`: each kept child expanded with its sub-mask, in order. */
  function ExpandFields(env: Env, root: Mask, stack: set<Pair>, st: ExpState, kept: seq<(Name, Node)>, mask: Mask,
                        ghost pending: set<Handle>)
    : (res: (Result<seq<(Name, Sel)>, ExpError>, ExpState))
    requires WfEnv(env) && mask in SubMasks(root) && stack <= Universe(env, root)
    requires forall x :: x in kept ==> x.1 in Nodes(env)
    ensures Good(env, st, pending) && res.0.Ok? ==>
      && Good(env, res.1, pending) && Extends(st, res.1)
      && MapMatches(env, res.1.origin, MapNode(res.0.value), kept, mask)
    decreases |Universe(env, root) - stack|, 1, |kept|
  {
    if kept == [] then (Ok([]), st)
    else
      var name := kept[0].0;
      DerivedMasksIn(root, mask, name);
      var (r, st1) := Expand(env, root, stack, st, kept[0].1, SubMaskFor(mask, name), pending);
      if r.Err? then (Err(r.error), st1)
      else
        assert forall x :: x in kept[1..] ==> x in kept;
        var (rs, st2) := ExpandFields(env, root, stack, st1, kept[1..], mask, pending);
        if rs.Err? then (rs, st2)
        else
          assert Good(env, st, pending) ==> Extends(st, st2) && MapMatches(env, st2.origin, MapNode([(name, r.value)] + rs.value), kept, mask) by {
            if Good(env, st, pending) {
              ExtendsTrans(st, st1, st2);
              DenotesMono(env, st1.origin, st2.origin, r.value, Pair(kept[0].1, SubMaskFor(mask, name)));
              MapMatchesCons(env, st2.origin, name, r.value, rs.value, kept, mask);
            }
          }
          (Ok([(name, r.value)] + rs.value), st2)
  }

  /** `FieldExpander.expand(object, fields)`: a fresh expander, an empty stack. */
  function ExpandRoot(env: Env, node: Node, mask: Mask): (res: (Result<Sel, ExpError>, ExpState))
    requires WfEnv(env) && node in Nodes(env)
    ensures res.0.Ok? ==> Good(env, res.1, {}) && Denotes(env, res.1.origin, res.0.value, Pair(node, mask))
  {
    SelfAndAllIn(mask);
    GoodEmpty(env);
    Expand(env, mask, {}, EmptyState(), node, mask, {})
  }

  // ---------------------------------------------------------------------
  // Cycle safety: the re-entry guard never raises
  // ---------------------------------------------------------------------

  /**
   The stack invariant behind cycle safety: every pair on the stack already
   has its history entry, except an attribute's own pair while only types are
   expanded below it. An attribute's type reaches only types, never a view,
   so the attribute itself is never requested again.
   */
  predicate StackRecorded(st: ExpState, stack: set<Pair>, n: Node) {
    forall q :: q in stack ==> q in st.history || (q.node.AttrNode? && n.TypeNode?)
  }

  /** The one failure left: a mask that is an array or falsy reached `fields.key?`; it is a part of the root mask. */
  predicate ShapeError(e: ExpError, root: Mask) {
    e.MaskShape? && (e.mask.Wrapped? || e.mask.Falsy?) && e.mask in SubMasks(root)
  }

  lemma {:induction false} ExpandSafe(env: Env, root: Mask, stack: set<Pair>, st: ExpState, node: Node, mask: Mask,
                                      pending: set<Handle>)
    requires WfEnv(env) && node in Nodes(env) && mask in SubMasks(root) && stack <= Universe(env, root)
    requires StackRecorded(st, stack, node)
    ensures var res := Expand(env, root, stack, st, node, mask, pending);
      st.history.Keys <= res.1.history.Keys && (res.0.Err? ==> ShapeError(res.0.error, root))
    decreases |Universe(env, root) - stack|, 0, 0
  {
    var p := Pair(node, mask);
    if p !in stack {
      PushShrinks(env, root, stack, p);
      NodesOk(env, node);
      match node
      case ViewNode(v) => ExpandViewSafe(env, root, stack + {p}, st, v, mask, pending);
      case TypeNode(t) => ExpandTypeSafe(env, root, stack + {p}, st, t, mask, pending);
      case AttrNode(a) => ExpandTypeSafe(env, root, stack + {p}, st, a.typ, mask, pending);
    }
  }

  lemma {:induction false} ExpandTypeSafe(env: Env, root: Mask, stack: set<Pair>, st: ExpState, t: TypeId, mask: Mask,
                                          pending: set<Handle>)
    requires WfEnv(env) && t in env.types && mask in SubMasks(root) && stack <= Universe(env, root)
    requires forall q :: q in stack ==> q in st.history || q.node.AttrNode? || q == Pair(TypeNode(t), mask)
    ensures var res := ExpandType(env, root, stack, st, t, mask, pending);
      st.history.Keys <= res.1.history.Keys && (res.0.Err? ==> ShapeError(res.0.error, root))
    decreases |Universe(env, root) - stack|, 2, 0
  {
    var p := Pair(TypeNode(t), mask);
    assert WfType(env, env.types[t]);
    match env.types[t]
    case Primitive =>
    case Collection(member) =>
      if p !in st.history {
        var st1 := Open(st, p, ListNode([]));
        DerivedMasksIn(root, mask, "");
        ExpandSafe(env, root, stack, st1, TypeNode(member), Unwrap(mask), pending + {st.next});
      }
    case Struct(attrs, _) =>
      if |attrs| != 0 && p !in st.history {
        var st1 := Open(st, p, MapNode([]));
        match SelectFields(AttrChildren(attrs), mask)
        case Err(_) =>
        case Ok(kept) =>
          StructChildrenIn(env, t);
          assert forall i :: 0 <= i < |kept| ==> kept[i].1.TypeNode? by {
            forall i | 0 <= i < |kept| ensures kept[i].1.TypeNode? {
              assert kept[i] in AttrChildren(attrs);
            }
          }
          FieldsSafe(env, root, stack, st1, kept, mask, pending + {st.next});
      }
  }

  lemma {:induction false} ExpandViewSafe(env: Env, root: Mask, stack: set<Pair>, st: ExpState, v: ViewId, mask: Mask,
                                          pending: set<Handle>)
    requires WfEnv(env) && v in env.views && mask in SubMasks(root) && stack <= Universe(env, root)
    requires forall q :: q in stack ==> q in st.history || q == Pair(ViewNode(v), mask)
    ensures var res := ExpandView(env, root, stack, st, v, mask, pending);
      st.history.Keys <= res.1.history.Keys && (res.0.Err? ==> ShapeError(res.0.error, root))
    decreases |Universe(env, root) - stack|, 2, 0
  {
    var vd := env.views[v];
    var placeholder := if vd.kind == Standard then MapNode([]) else ListNode([]);
    var st1 := Open(st, Pair(ViewNode(v), mask), placeholder);
    match SelectFields(ViewChildren(vd.contents), mask)
    case Err(_) =>
    case Ok(kept) =>
      ViewChildrenIn(env, v);
      FieldsSafe(env, root, stack, st1, kept, mask, pending + {st.next});
  }

  lemma {:induction false} FieldsSafe(env: Env, root: Mask, stack: set<Pair>, st: ExpState, kept: seq<(Name, Node)>,
                                      mask: Mask, pending: set<Handle>)
    requires WfEnv(env) && mask in SubMasks(root) && stack <= Universe(env, root)
    requires forall x :: x in kept ==> x.1 in Nodes(env)
    requires forall i :: 0 <= i < |kept| ==> StackRecorded(st, stack, kept[i].1)
    ensures var res := ExpandFields(env, root, stack, st, kept, mask, pending);
      st.history.Keys <= res.1.history.Keys && (res.0.Err? ==> ShapeError(res.0.error, root))
    decreases |Universe(env, root) - stack|, 1, |kept|
  {
    if kept != [] {
      var name := kept[0].0;
      DerivedMasksIn(root, mask, name);
      ExpandSafe(env, root, stack, st, kept[0].1, SubMaskFor(mask, name), pending);
      var (r, st1) := Expand(env, root, stack, st, kept[0].1, SubMaskFor(mask, name), pending);
      if r.Ok? {
        assert forall x :: x in kept[1..] ==> x in kept;
        assert forall i :: 0 <= i < |kept[1..]| ==> StackRecorded(st1, stack, kept[1..][i].1) by {
          forall i | 0 <= i < |kept[1..]| ensures StackRecorded(st1, stack, kept[1..][i].1) {
            assert kept[1..][i] == kept[i + 1];
          }
        }
        FieldsSafe(env, root, stack, st1, kept[1..], mask, pending);
      }
    }
  }

  /**
   Cycle safety of `FieldExpander.expand`: the re-entry guard's raise is never
   reached, so an expansion fails only when a mask that is not a hash (an
   array, or `nil`/`false`) is tested with `key?`.
   */
  lemma ExpandRootCycleSafe(env: Env, node: Node, mask: Mask)
    requires WfEnv(env) && node in Nodes(env)
    ensures ExpandRoot(env, node, mask).0.Err? ==> ShapeError(ExpandRoot(env, node, mask).0.error, mask)
  {
    SelfAndAllIn(mask);
    ExpandSafe(env, mask, {}, EmptyState(), node, mask, {});
  }

  /** A mask with no array and no falsy part anywhere, such as `true`, always expands. */
  lemma ExpandRootTotal(env: Env, node: Node, mask: Mask)
    requires WfEnv(env) && node in Nodes(env)
    requires forall m :: m in SubMasks(mask) ==> m.All? || m.Fields?
    ensures ExpandRoot(env, node, mask).0.Ok?
  {
    ExpandRootCycleSafe(env, node, mask);
  }

  /** In particular the default mask `true` always expands. */
  lemma ExpandRootAll(env: Env, node: Node)
    requires WfEnv(env) && node in Nodes(env)
    ensures ExpandRoot(env, node, All).0.Ok?
  {
    ExpandRootTotal(env, node, All);
  }

  // ---------------------------------------------------------------------
  // Properties of the expander
  // ---------------------------------------------------------------------

  /** Under `true` every child is kept, in order. */
  lemma {:induction false} KeptAll(children: seq<(Name, Node)>)
    ensures Kept(children, All) == children
  {
    if children != [] {
      KeptAll(children[1..]);
    }
  }

  /** Under a hash mask a child is kept exactly when the mask has its name: unknown mask keys add nothing. */
  lemma {:induction false} KeptExactly(children: seq<(Name, Node)>, m: Mask, x: (Name, Node))
    requires m.Fields?
    ensures x in Kept(children, m) <==> x in children && HasKey(m.entries, x.0)
  {
    if children != [] {
      KeptExactly(children[1..], m, x);
      assert children == [children[0]] + children[1..];
    }
  }

  /** Kept children appear in the order of the node's own children, whatever the mask's order. */
  lemma {:induction false} KeptInOrder(children: seq<(Name, Node)>, m: Mask, i: nat, j: nat)
    requires i < j < |Kept(children, m)|
    ensures exists a, b :: 0 <= a < b < |children| && children[a] == Kept(children, m)[i] && children[b] == Kept(children, m)[j]
    decreases |children|
  {
    var k := Kept(children, m);
    var rest := Kept(children[1..], m);
    if Wanted(m, children[0].0) {
      if i == 0 {
        assert k[j] == rest[j - 1];
        assert k[j] in children[1..];
        var b :| 0 <= b < |children[1..]| && children[1..][b] == k[j];
        assert children[b + 1] == k[j];
      } else {
        KeptInOrder(children[1..], m, i - 1, j - 1);
        var a, b :| 0 <= a < b < |children[1..]| && children[1..][a] == rest[i - 1] && children[1..][b] == rest[j - 1];
        assert children[a + 1] == k[i] && children[b + 1] == k[j];
      }
    } else {
      KeptInOrder(children[1..], m, i, j);
      var a, b :| 0 <= a < b < |children[1..]| && children[1..][a] == rest[i] && children[1..][b] == rest[j];
      assert children[a + 1] == k[i] && children[b + 1] == k[j];
    }
  }

  /** A type with neither `attributes` nor `member_attribute` expands to `true`, whatever the mask. */
  lemma PrimitiveIsTrue(env: Env, t: TypeId, mask: Mask)
    requires WfEnv(env) && t in env.types && env.types[t].Primitive?
    ensures ExpandRoot(env, TypeNode(t), mask).0 == Ok(SelTrue)
  {
    SelfAndAllIn(mask);
    var p := Pair(TypeNode(t), mask);
    PushShrinks(env, mask, {}, p);
    assert ExpandRoot(env, TypeNode(t), mask) == Expand(env, mask, {}, EmptyState(), TypeNode(t), mask, {});
    assert Expand(env, mask, {}, EmptyState(), TypeNode(t), mask, {}) == ExpandType(env, mask, {p}, EmptyState(), t, mask, {});
  }

  /** A struct with no attributes expands to `true`, whatever the mask. */
  lemma EmptyStructIsTrue(env: Env, t: TypeId, mask: Mask)
    requires WfEnv(env) && t in env.types && env.types[t].Struct? && |env.types[t].attrs| == 0
    ensures ExpandRoot(env, TypeNode(t), mask).0 == Ok(SelTrue)
  {
    SelfAndAllIn(mask);
    var p := Pair(TypeNode(t), mask);
    PushShrinks(env, mask, {}, p);
    assert ExpandRoot(env, TypeNode(t), mask) == Expand(env, mask, {}, EmptyState(), TypeNode(t), mask, {});
    assert Expand(env, mask, {}, EmptyState(), TypeNode(t), mask, {}) == ExpandType(env, mask, {p}, EmptyState(), t, mask, {});
  }

  /**
   The shape of a finished expansion: a collection type gives a one-element
   list over its member with the mask unwrapped once; a struct and a plain
   view give a hash over exactly the kept children with their sub-masks; a
   CollectionView gives a one-element list around such a hash.
   */
  lemma {:induction false} BuiltShape(env: Env, st: ExpState, s: Sel, p: Pair)
    requires Good(env, st, {}) && Denotes(env, st.origin, s, p) && !Trivial(env, p)
    ensures s.SelRef? && s.h in st.arena
    ensures Built(env, st.origin, st.arena[s.h], Whole(Canon(p)))
  {
  }

  /** Two nodes built for the same type request are one node: a type's expansion is shared. */
  lemma {:induction false} TypeNodeShared(env: Env, st: ExpState, pending: set<Handle>, h1: Handle, h2: Handle)
    requires Good(env, st, pending) && h1 in st.origin && h2 in st.origin
    requires st.origin[h1] == st.origin[h2] && st.origin[h1].Whole? && st.origin[h1].p.node.TypeNode?
    ensures h1 == h2
  {
  }

  /**
   Asking the same instance again for a type and mask it has expanded gives
   back the very selection it gave the first time, and changes nothing.
   */
  lemma {:induction false} RepeatedTypeRequestIdentical(env: Env, root: Mask, stack: set<Pair>, st: ExpState,
                                                        t: TypeId, mask: Mask, pending: set<Handle>)
    requires WfEnv(env) && t in env.types && mask in SubMasks(root) && stack <= Universe(env, root)
    requires Good(env, st, pending) && ExpandType(env, root, stack, st, t, mask, pending).0.Ok?
    ensures var (r1, st1) := ExpandType(env, root, stack, st, t, mask, pending);
      ExpandType(env, root, stack, st1, t, mask, pending) == (r1, st1)
  {
    var (r1, st1) := ExpandType(env, root, stack, st, t, mask, pending);
    var p := Pair(TypeNode(t), mask);
    if !Trivial(env, p) {
      assert st1.origin[r1.value.h] == Whole(p);
      assert p in st1.history && st1.history[p] == r1.value;
    }
  }
}
