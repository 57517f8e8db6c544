/**
 `FieldExpander` exactly as its code reads. It differs from `FieldExpander`
 in two places:

 - the `ensure` of `expand` deletes the pair from the shared stack on every
   exit, including the early return that answers a re-entry, so a re-entry
   removes its ancestor's mark;
 - `expand_with_member_attribute` returns the array it built, not the
   history entry it filled.

 The call stack of the Ruby process is bounded here by `fuel`; running out
 of it is `StackOverflow`, which Ruby reports as `SystemStackError`.
 */
module FieldExpanderAsWritten {
  import opened Common
  import opened Schema
  import opened Masks
  import opened Selection
  import opened FieldExpander

  datatype AwError =
    | Circular(node: Node, mask: Mask)
    | Malformed(node: Node, mask: Mask)
    | StackOverflow

  /** One expander instance: `stack`, `history` and the arena of built nodes, all shared by every frame. */
  datatype AwState = AwState(stack: set<Pair>, history: map<Pair, Sel>, arena: Arena, next: Handle)

  function AwEmpty(): AwState {
    AwState({}, map[], map[], 0)
  }

  /** `history[object][fields] = {}` (or `[]`). */
  function AwOpen(st: AwState, p: Pair, placeholder: TreeNode): AwState {
    st.(history := st.history[p := SelRef(st.next)], arena := st.arena[st.next := placeholder], next := st.next + 1)
  }

  /** A fresh node that no history entry names. */
  function AwAlloc(st: AwState, node: TreeNode): AwState {
    st.(arena := st.arena[st.next := node], next := st.next + 1)
  }

  /** `Hash#merge!`: each new key is stored in order, an existing key keeps its place. */
  function MergeEntries(es: seq<(Name, Sel)>, more: seq<(Name, Sel)>): seq<(Name, Sel)>
    decreases |more|
  {
    if more == [] then es else MergeEntries(Put(es, more[0].0, more[0].1), more[1..])
  }

  /**
   `history[object][fields].merge!(result)`: merge into whatever hash the
   history entry names at this moment. Entries written by `AwOpen` name a
   hash for a struct or a plain view, so the last branch is not reached.
   */
  function MergeInto(st: AwState, s: Sel, es: seq<(Name, Sel)>): AwState {
    if s.SelRef? && s.h in st.arena && st.arena[s.h].MapNode? then
      st.(arena := st.arena[s.h := MapNode(MergeEntries(st.arena[s.h].entries, es))])
    else st
  }

  /** `history[object][fields] << x` / `.concat([x])`: append to whatever array the entry names now. */
  function AppendInto(st: AwState, s: Sel, x: Sel): AwState {
    if s.SelRef? && s.h in st.arena && st.arena[s.h].ListNode? then
      st.(arena := st.arena[s.h := ListNode(st.arena[s.h].items + [x])])
    else st
  }

  /** `expand`: the stack guard, the dispatch, and the `ensure` that deletes the pair on every exit. */
  function Expand(env: Env, st: AwState, node: Node, mask: Mask, fuel: nat): (res: (Result<Sel, AwError>, AwState))
    requires WfEnv(env) && node in Nodes(env)
    ensures fuel > 0 ==> Pair(node, mask) !in res.1.stack
    ensures st.history.Keys <= res.1.history.Keys
    decreases fuel, 0, 0
  {
    var p := Pair(node, mask);
    if fuel == 0 then (Err(StackOverflow), st)
    else if p in st.stack then
      var popped := st.(stack := st.stack - {p});
      if p in st.history then (Ok(st.history[p]), popped) else (Err(Circular(node, mask)), popped)
    else
      NodesOk(env, node);
      var st1 := st.(stack := st.stack + {p});
      var (r, st2) := match node
        case ViewNode(v) => ExpandView(env, st1, v, mask, fuel - 1)
        case TypeNode(t) => ExpandType(env, st1, t, mask, fuel - 1)
        case AttrNode(a) => ExpandType(env, st1, a.typ, mask, fuel - 1);
      (r, st2.(stack := st2.stack - {p}))
  }

  /** `expand_view`: no history check; the result is whatever `history[object][fields]` names at the end. */
  function ExpandView(env: Env, st: AwState, v: ViewId, mask: Mask, fuel: nat): (res: (Result<Sel, AwError>, AwState))
    requires WfEnv(env) && v in env.views
    ensures st.history.Keys <= res.1.history.Keys
    decreases fuel, 2, 0
  {
    var vd := env.views[v];
    var p := Pair(ViewNode(v), mask);
    var st1 := AwOpen(st, p, if vd.kind == Standard then MapNode([]) else ListNode([]));
    match SelectFields(ViewChildren(vd.contents), mask)
    case Err(_) => (Err(Malformed(ViewNode(v), mask)), st1)
    case Ok(kept) =>
      ViewChildrenIn(env, v);
      var (r, st2) := ExpandFields(env, st1, kept, mask, fuel);
      if r.Err? then (Err(r.error), st2)
      else if vd.kind == Standard then
        (Ok(st2.history[p]), MergeInto(st2, st2.history[p], r.value))
      else
        var st3 := AwAlloc(st2, MapNode(r.value));
        (Ok(st3.history[p]), AppendInto(st3, st3.history[p], SelRef(st2.next)))
  }

  /** `expand_type` and `expand_with_member_attribute`. */
  function ExpandType(env: Env, st: AwState, t: TypeId, mask: Mask, fuel: nat): (res: (Result<Sel, AwError>, AwState))
    requires WfEnv(env) && t in env.types
    ensures st.history.Keys <= res.1.history.Keys
    decreases fuel, 2, 0
  {
    var p := Pair(TypeNode(t), mask);
    assert WfType(env, env.types[t]);
    match env.types[t]
    case Primitive => (Ok(SelTrue), st)
    case Collection(member) =>
      if p in st.history then (Ok(st.history[p]), st)
      else
        var st1 := AwOpen(st, p, ListNode([]));
        var (r, st2) := Expand(env, st1, TypeNode(member), Unwrap(mask), fuel);
        if r.Err? then (r, st2)
        else
          var st3 := AppendInto(st2, st2.history[p], r.value);
          (Ok(SelRef(st3.next)), AwAlloc(st3, ListNode([r.value])))
    case Struct(attrs, _) =>
      if |attrs| == 0 then (Ok(SelTrue), st)
      else if p in st.history then (Ok(st.history[p]), st)
      else
        var st1 := AwOpen(st, p, MapNode([]));
        match SelectFields(AttrChildren(attrs), mask)
        case Err(_) => (Err(Malformed(TypeNode(t), mask)), st1)
        case Ok(kept) =>
          StructChildrenIn(env, t);
          var (r, st2) := ExpandFields(env, st1, kept, mask, fuel);
          if r.Err? then (Err(r.error), st2)
          else (Ok(st2.history[p]), MergeInto(st2, st2.history[p], r.value))
  }

  /** The loop of `expand_fields`, over the shared state. */
  function ExpandFields(env: Env, st: AwState, kept: seq<(Name, Node)>, mask: Mask, fuel: nat)
    : (res: (Result<seq<(Name, Sel)>, AwError>, AwState))
    requires WfEnv(env) && forall x :: x in kept ==> x.1 in Nodes(env)
    ensures st.history.Keys <= res.1.history.Keys
    decreases fuel, 1, |kept|
  {
    if kept == [] then (Ok([]), st)
    else
      var (r, st1) := Expand(env, st, kept[0].1, SubMaskFor(mask, kept[0].0), fuel);
      if r.Err? then (Err(r.error), st1)
      else
        assert forall x :: x in kept[1..] ==> x in kept;
        var (rs, st2) := ExpandFields(env, st1, kept[1..], mask, fuel);
        if rs.Err? then (rs, st2) else (Ok([(kept[0].0, r.value)] + rs.value), st2)
  }

  /**
   A plain view whose two entries both name the view itself never finishes:
   the first entry's re-entry pops the view's own stack mark, so the second
   entry expands the view again, one frame deeper, whatever the budget.
   */
  lemma {:induction false} TwinSelfViewDiverges(env: Env, v: ViewId, st: AwState, fuel: nat)
    requires WfEnv(env) && v in env.views && env.views[v].kind == Standard
    requires env.views[v].contents == [("a", Nested(v)), ("b", Nested(v))]
    requires Pair(ViewNode(v), All) !in st.stack
    ensures Expand(env, st, ViewNode(v), All, fuel).0 == Err(StackOverflow)
    decreases fuel, 0
  {
    if fuel > 0 {
      var p := Pair(ViewNode(v), All);
      var kept := ViewChildren(env.views[v].contents);
      KeptAll(kept);
      assert kept == [("a", ViewNode(v)), ("b", ViewNode(v))];
      ViewChildrenIn(env, v);
      var st1 := st.(stack := st.stack + {p});
      TwinFieldsOverflow(env, v, AwOpen(st1, p, MapNode([])), fuel - 1);
      assert ExpandView(env, st1, v, All, fuel - 1).0 == Err(StackOverflow);
    }
  }

  /** Inside the open view, the first entry's re-entry pops the mark and the second entry starts over. */
  lemma {:induction false} TwinFieldsOverflow(env: Env, v: ViewId, st: AwState, fuel: nat)
    requires WfEnv(env) && v in env.views && env.views[v].kind == Standard
    requires env.views[v].contents == [("a", Nested(v)), ("b", Nested(v))]
    requires Pair(ViewNode(v), All) in st.stack && Pair(ViewNode(v), All) in st.history
    requires ViewNode(v) in Nodes(env)
    ensures ExpandFields(env, st, [("a", ViewNode(v)), ("b", ViewNode(v))], All, fuel).0 == Err(StackOverflow)
    decreases fuel, 1
  {
    var p := Pair(ViewNode(v), All);
    var kept := [("a", ViewNode(v)), ("b", ViewNode(v))];
    if fuel > 0 {
      var sta := st.(stack := st.stack - {p});
      assert Expand(env, st, ViewNode(v), All, fuel) == (Ok(st.history[p]), sta);
      TwinSelfViewDiverges(env, v, sta, fuel);
      assert kept[1..] == [("b", ViewNode(v))];
      assert ExpandFields(env, sta, kept[1..], All, fuel).0 == Err(StackOverflow);
    }
  }
}
