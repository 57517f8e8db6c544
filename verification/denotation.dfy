/**
 What an expansion means, defined without `history`, `stack` or handles: the
 (possibly infinite) tree obtained by expanding every request afresh, cut
 off at a depth. The cyclic arena the expander builds unfolds to exactly
 this tree, to every depth.
 */
module Denotation {
  import opened Common
  import opened Schema
  import opened Masks
  import opened Selection
  import opened FieldExpander

  /** The tree a request stands for, `depth` levels deep. */
  function Denote(env: Env, p: Pair, depth: nat): Plain
    decreases depth, 0, 0
  {
    if Trivial(env, p) then PTrue
    else if depth == 0 then PCut
    else DenoteLabel(env, Whole(Canon(p)), depth - 1)
  }

  /** The node for a request, its children `depth` levels deep. */
  function DenoteLabel(env: Env, l: Label, depth: nat): Plain
    decreases depth, 2, 0
  {
    match l
    case Body(v, m) =>
      if v !in env.views then PMissing
      else DenoteMap(env, ViewChildren(env.views[v].contents), m, depth)
    case Whole(Pair(TypeNode(t), m)) =>
      if t !in env.types then PMissing
      else (match env.types[t]
            case Primitive => PTrue
            case Collection(member) => PList([Denote(env, Pair(TypeNode(member), Unwrap(m)), depth)])
            case Struct(attrs, _) => DenoteMap(env, AttrChildren(attrs), m, depth))
    case Whole(Pair(ViewNode(v), m)) =>
      if v !in env.views then PMissing
      else if env.views[v].kind == Standard then DenoteMap(env, ViewChildren(env.views[v].contents), m, depth)
      else if depth == 0 then PList([PCut])
      else PList([DenoteLabel(env, Body(v, m), depth - 1)])
    case Whole(Pair(AttrNode(_), _)) => PMissing   // labels are canonical: an attribute is labelled by its type
  }

  /** A hash over the children the mask selects, or a missing node when the mask cannot select. */
  function DenoteMap(env: Env, children: seq<(Name, Node)>, m: Mask, depth: nat): Plain
    decreases depth, 1, 0
  {
    match SelectFields(children, m)
    case Err(_) => PMissing
    case Ok(kept) => PMap(DenoteChildren(env, kept, m, depth))
  }

  function DenoteChildren(env: Env, kept: seq<(Name, Node)>, m: Mask, depth: nat): (r: seq<(Name, Plain)>)
    ensures |r| == |kept|
    ensures forall i :: 0 <= i < |kept| ==>
      r[i] == (kept[i].0, Denote(env, Pair(kept[i].1, SubMaskFor(m, kept[i].0)), depth))
    decreases depth, 0, |kept| + 1
  {
    if kept == [] then []
    else [(kept[0].0, Denote(env, Pair(kept[0].1, SubMaskFor(m, kept[0].0)), depth))]
         + DenoteChildren(env, kept[1..], m, depth)
  }

  // ---------------------------------------------------------------------
  // The arena means the denotation
  // ---------------------------------------------------------------------

  /** A selection built for a request unfolds, to any depth, to what the request denotes. */
  lemma {:induction false} UnfoldMeansDenote(env: Env, st: ExpState, s: Sel, p: Pair, d: nat)
    requires Good(env, st, {}) && Denotes(env, st.origin, s, p)
    ensures Unfold(st.arena, s, d) == Denote(env, p, d)
    decreases d, 0, 0
  {
    if !Trivial(env, p) && d > 0 {
      assert s.h in st.arena;
      UnfoldBuilt(env, st, st.arena[s.h], Whole(Canon(p)), d - 1);
    }
  }

  lemma {:induction false} UnfoldBuilt(env: Env, st: ExpState, node: TreeNode, l: Label, d: nat)
    requires Good(env, st, {}) && Built(env, st.origin, node, l)
    ensures UnfoldNode(st.arena, node, d) == DenoteLabel(env, l, d)
    decreases d, 3, 0
  {
    match l
    case Body(v, m) =>
      UnfoldMap(env, st, node.entries, SelectFields(ViewChildren(env.views[v].contents), m).value, m, d);
    case Whole(Pair(TypeNode(t), m)) =>
      UnfoldBuiltType(env, st, node, t, m, d);
    case Whole(Pair(ViewNode(v), m)) =>
      UnfoldBuiltView(env, st, node, v, m, d);
  }

  lemma {:induction false} UnfoldBuiltType(env: Env, st: ExpState, node: TreeNode, t: TypeId, m: Mask, d: nat)
    requires Good(env, st, {}) && Built(env, st.origin, node, Whole(Pair(TypeNode(t), m)))
    ensures UnfoldNode(st.arena, node, d) == DenoteLabel(env, Whole(Pair(TypeNode(t), m)), d)
    decreases d, 2, 0
  {
    if env.types[t].Collection? {
      UnfoldMeansDenote(env, st, node.items[0], Pair(TypeNode(env.types[t].member), Unwrap(m)), d);
      assert UnfoldItems(st.arena, node.items, d) == [Unfold(st.arena, node.items[0], d)];
    } else {
      UnfoldMap(env, st, node.entries, SelectFields(AttrChildren(env.types[t].attrs), m).value, m, d);
    }
  }

  lemma {:induction false} UnfoldBuiltView(env: Env, st: ExpState, node: TreeNode, v: ViewId, m: Mask, d: nat)
    requires Good(env, st, {}) && Built(env, st.origin, node, Whole(Pair(ViewNode(v), m)))
    ensures UnfoldNode(st.arena, node, d) == DenoteLabel(env, Whole(Pair(ViewNode(v), m)), d)
    decreases d, 2, 0
  {
    if env.views[v].kind == Standard {
      UnfoldMap(env, st, node.entries, SelectFields(ViewChildren(env.views[v].contents), m).value, m, d);
    } else {
      var h2 := node.items[0].h;
      assert UnfoldItems(st.arena, node.items, d) == [Unfold(st.arena, node.items[0], d)];
      if d > 0 {
        assert h2 in st.arena;
        UnfoldBuilt(env, st, st.arena[h2], Body(v, m), d - 1);
      }
    }
  }

  lemma {:induction false} UnfoldMap(env: Env, st: ExpState, es: seq<(Name, Sel)>, kept: seq<(Name, Node)>, m: Mask, d: nat)
    requires Good(env, st, {}) && MapMatches(env, st.origin, MapNode(es), kept, m)
    ensures UnfoldEntries(st.arena, es, d) == DenoteChildren(env, kept, m, d)
    decreases d, 1, 0
  {
    forall i | 0 <= i < |kept|
      ensures UnfoldEntries(st.arena, es, d)[i] == DenoteChildren(env, kept, m, d)[i]
    {
      UnfoldMeansDenote(env, st, es[i].1, Pair(kept[i].1, SubMaskFor(m, kept[i].0)), d);
    }
  }

  /**
   `FieldExpander.expand(object, fields)`, read as plain nested data, is the
   tree its definition describes: memoising in `history` and closing cycles
   through the `stack` change sharing, never content.
   */
  lemma ExpansionMeaning(env: Env, node: Node, mask: Mask, d: nat)
    requires WfEnv(env) && node in Nodes(env) && ExpandRoot(env, node, mask).0.Ok?
    ensures var (r, st) := ExpandRoot(env, node, mask);
      Unfold(st.arena, r.value, d) == Denote(env, Pair(node, mask), d)
  {
    var (r, st) := ExpandRoot(env, node, mask);
    UnfoldMeansDenote(env, st, r.value, Pair(node, mask), d);
  }

  /**
   The meaning of an expansion that cannot fail: with no array and no falsy
   part in the mask (in particular under `true`), the expander always
   succeeds and gives the defined tree; a failure under any other mask is
   the mask's shape, never the cycle guard.
   */
  lemma ExpansionMeaningTotal(env: Env, node: Node, mask: Mask, d: nat)
    requires WfEnv(env) && node in Nodes(env)
    requires forall m :: m in SubMasks(mask) ==> m.All? || m.Fields?
    ensures var (r, st) := ExpandRoot(env, node, mask);
      r.Ok? && Unfold(st.arena, r.value, d) == Denote(env, Pair(node, mask), d)
  {
    ExpandRootTotal(env, node, mask);
    ExpansionMeaning(env, node, mask, d);
  }
}
