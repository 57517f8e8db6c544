/**
 The schema graph the field expander walks: types found by duck typing
 (`attributes`, `member_attribute`, or neither) and views whose contents
 have been evaluated. Types and views are addressed by id, so a graph that
 refers back to itself is an ordinary finite value.
 */
module Schema {
  import opened Common

  type TypeId = nat
  type ViewId = nat

  /** An `Attributor::Attribute`: its name on the owning struct and its value type. */
  datatype Attribute = Attribute(name: Name, typ: TypeId)

  /**
   How a type answers the expander's probes: a struct-like type (a Blueprint,
   an `Attributor::Model`, a keyed Hash) responds to `attributes`; a
   collection responds only to `member_attribute`; anything else to neither.
   */
  datatype TypeDef =
    | Primitive
    | Struct(attrs: seq<Attribute>, blueprint: bool)
    | Collection(member: TypeId)

  /** A view's entry for one field: the raw attribute, or a View/CollectionView. */
  datatype Entry = Raw(attr: Attribute) | Nested(view: ViewId)

  datatype ViewKind = Standard | CollectionKind

  /** A view as the expander sees it, once its contents have been evaluated. */
  datatype ViewDef = ViewDef(name: Name, kind: ViewKind, contents: seq<(Name, Entry)>)

  datatype Env = Env(types: map<TypeId, TypeDef>, views: map<ViewId, ViewDef>)

  predicate UniqueAttrNames(attrs: seq<Attribute>) {
    forall i, j :: 0 <= i < j < |attrs| ==> attrs[i].name != attrs[j].name
  }

  predicate WfType(env: Env, d: TypeDef) {
    match d
    case Primitive => true
    case Struct(attrs, _) =>
      UniqueAttrNames(attrs) && forall i :: 0 <= i < |attrs| ==> attrs[i].typ in env.types
    case Collection(member) => member in env.types
  }

  predicate WfEntry(env: Env, e: Entry) {
    match e
    case Raw(a) => a.typ in env.types
    case Nested(w) => w in env.views
  }

  predicate WfView(env: Env, vd: ViewDef) {
    UniqueNames(vd.contents) && forall i :: 0 <= i < |vd.contents| ==> WfEntry(env, vd.contents[i].1)
  }

  /** Every type and view the graph mentions exists, and names are unique per struct and per view. */
  predicate WfEnv(env: Env) {
    && (forall t :: t in env.types ==> WfType(env, env.types[t]))
    && (forall v :: v in env.views ==> WfView(env, env.views[v]))
  }
}

/**
 Field masks: what a caller asks to render. `true`, a hash from field name to
 sub-mask, a one-element array wrapping a mask for the members of a
 collection, or a falsy value (`nil` or `false`).
 */
module Masks {
  import opened Common

  datatype Mask = All | Fields(entries: seq<(Name, Mask)>) | Wrapped(inner: Mask) | Falsy

  /** The mask a kept field is expanded with: `true` under `true`, else `fields[name] || true`. */
  function SubMaskFor(m: Mask, name: Name): (r: Mask)
    ensures m.Fields? && HasKey(m.entries, name) && !Lookup(m.entries, name).value.Falsy? ==>
      r == Lookup(m.entries, name).value
    ensures m.Fields? && HasKey(m.entries, name) && Lookup(m.entries, name).value.Falsy? ==> r == All
    ensures !(m.Fields? && HasKey(m.entries, name)) ==> r == All
    ensures !r.Falsy?
  {
    if m.Fields? then
      var x := Lookup(m.entries, name).GetOr(All);
      if x.Falsy? then All else x
    else All
  }

  /** `fields.is_a?(Array) ? fields[0] : fields`: one level of array wrapping removed. */
  function Unwrap(m: Mask): Mask {
    if m.Wrapped? then m.inner else m
  }

  /** Every mask the expansion of `m` can ever be asked about: `m`, `true`, and those of its parts. */
  function SubMasks(m: Mask): set<Mask>
    decreases m, 1
  {
    match m
    case All => {All}
    case Falsy => {m, All}
    case Wrapped(i) => {m, All} + SubMasks(i)
    case Fields(es) => {m, All} + EntrySubMasks(m, |es|)
  }

  function EntrySubMasks(m: Mask, n: nat): set<Mask>
    requires m.Fields? && n <= |m.entries|
    decreases m, 0, n
  {
    if n == 0 then {} else EntrySubMasks(m, n - 1) + SubMasks(m.entries[n - 1].1)
  }

  lemma {:induction false} SelfAndAllIn(m: Mask)
    ensures m in SubMasks(m) && All in SubMasks(m)
  {
  }

  lemma {:induction false} EntrySubMasksHold(m: Mask, n: nat, k: nat)
    requires m.Fields? && k < n <= |m.entries|
    ensures SubMasks(m.entries[k].1) <= EntrySubMasks(m, n)
    decreases n
  {
    if k < n - 1 {
      EntrySubMasksHold(m, n - 1, k);
    }
  }

  lemma {:induction false} EntrySubMasksClosed(m: Mask, n: nat, x: Mask)
    requires m.Fields? && n <= |m.entries| && x in EntrySubMasks(m, n)
    ensures SubMasks(x) <= EntrySubMasks(m, n)
    decreases m, 0, n
  {
    if n > 0 {
      if x in SubMasks(m.entries[n - 1].1) {
        SubMasksClosed(m.entries[n - 1].1, x);
      } else {
        EntrySubMasksClosed(m, n - 1, x);
      }
    }
  }

  /** The sub-mask relation is transitive: a part of a part of `m` is a part of `m`. */
  lemma {:induction false} SubMasksClosed(m: Mask, x: Mask)
    requires x in SubMasks(m)
    ensures SubMasks(x) <= SubMasks(m)
    decreases m, 1
  {
    match m
    case All =>
    case Falsy =>
    case Wrapped(i) =>
      if x != m && x != All {
        SubMasksClosed(i, x);
      }
    case Fields(es) =>
      if x != m && x != All {
        EntrySubMasksClosed(m, |es|, x);
      }
  }

  /** The masks the expander derives from a mask in `SubMasks(root)` stay in it. */
  lemma DerivedMasksIn(root: Mask, m: Mask, name: Name)
    requires m in SubMasks(root)
    ensures SubMaskFor(m, name) in SubMasks(root)
    ensures Unwrap(m) in SubMasks(root)
  {
    SubMasksClosed(root, m);
    SelfAndAllIn(root);
    if m.Fields? && HasKey(m.entries, name) && !Lookup(m.entries, name).value.Falsy? {
      var i :| 0 <= i < |m.entries| && m.entries[i] == (name, SubMaskFor(m, name));
      EntrySubMasksHold(m, |m.entries|, i);
      SelfAndAllIn(m.entries[i].1);
    }
    if m.Wrapped? {
      SelfAndAllIn(m.inner);
    }
  }
}

/**
 Selection trees in an arena. A node of a tree is stored under a handle, so
 a subtree that closes back on an ancestor is the ancestor's handle: "the
 same Ruby object" becomes "the same handle".
 */
module Selection {
  import opened Common

  type Handle = nat

  /** A selection: `true`, or the handle of a hash or array node. */
  datatype Sel = SelTrue | SelRef(h: Handle)

  datatype TreeNode = MapNode(entries: seq<(Name, Sel)>) | ListNode(items: seq<Sel>)

  type Arena = map<Handle, TreeNode>

  /** A selection tree read as plain nested data, cut off at a depth. */
  datatype Plain = PTrue | PMap(entries: seq<(Name, Plain)>) | PList(items: seq<Plain>) | PCut | PMissing

  /** The tree under `s`, unfolded `depth` levels: what Ruby's `==` compares level by level. */
  function Unfold(arena: Arena, s: Sel, depth: nat): Plain
    decreases depth, 0, 0
  {
    match s
    case SelTrue => PTrue
    case SelRef(h) =>
      if depth == 0 then PCut
      else if h !in arena then PMissing
      else UnfoldNode(arena, arena[h], depth - 1)
  }

  /** One node read as plain data, its children unfolded `depth` levels. */
  function UnfoldNode(arena: Arena, node: TreeNode, depth: nat): Plain
    decreases depth, 2, 0
  {
    match node
    case MapNode(es) => PMap(UnfoldEntries(arena, es, depth))
    case ListNode(items) => PList(UnfoldItems(arena, items, depth))
  }

  function UnfoldEntries(arena: Arena, es: seq<(Name, Sel)>, depth: nat): (r: seq<(Name, Plain)>)
    ensures |r| == |es|
    ensures forall i :: 0 <= i < |es| ==> r[i] == (es[i].0, Unfold(arena, es[i].1, depth))
    decreases depth, 1, |es|
  {
    if es == [] then [] else [(es[0].0, Unfold(arena, es[0].1, depth))] + UnfoldEntries(arena, es[1..], depth)
  }

  function UnfoldItems(arena: Arena, items: seq<Sel>, depth: nat): (r: seq<Plain>)
    ensures |r| == |items|
    ensures forall i :: 0 <= i < |items| ==> r[i] == Unfold(arena, items[i], depth)
    decreases depth, 1, |items|
  {
    if items == [] then [] else [Unfold(arena, items[0], depth)] + UnfoldItems(arena, items[1..], depth)
  }
}
