/**
 `View` and `CollectionView` definition. A view holds its declaration block
 until `contents` is first asked for; running the block means running its
 `attribute` calls in order, each of which classifies one field into a raw
 attribute, a nested view, another blueprint's named view, or a collection
 view over one of those. Views live in a registry and refer to each other by
 id, so "the same View object" is "the same id".
 */
module Views {
  import opened Common
  import opened Schema
  import opened Selection

  /** The first argument of `attribute`: a Symbol, or any other Ruby value (kept as its `inspect`). */
  datatype NameArg = Sym(name: Name) | NotSym(inspect: string)

  /** One `attribute name, view: ..., &block` call of a declaration block. */
  datatype Decl = Decl(name: NameArg, view: Option<Name>, block: Option<seq<Decl>>)

  /** A memoised `FieldExpander.expand(view)` result: a selection tree in its arena. */
  datatype Expansion = Expansion(arena: Arena, root: Sel)

  /**
   One View or CollectionView object: `@name`, `@schema`, `@contents`, the
   not yet run `@block`, a CollectionView's `@_lazy_view` and the
   `@expanded_fields` memo.
   */
  datatype ViewState = ViewState(
    name: Name,
    schema: TypeId,
    kind: ViewKind,
    contents: seq<(Name, Entry)>,
    block: Option<seq<Decl>>,
    lazy: Option<ViewId>,
    expanded: Option<Expansion>)

  /** The types, each blueprint's named views (`Blueprint.views`), every view object, the next free id. */
  datatype Registry = Registry(
    types: map<TypeId, TypeDef>,
    named: map<TypeId, seq<(Name, ViewId)>>,
    views: map<ViewId, ViewState>,
    next: ViewId)

  datatype ViewError =
    | NotASymbol(inspect: string)                      // "Attribute names must be symbols"
    | NotAllowed(name: Name, view: Name, schema: TypeId) // "Displaying :name is not allowed in view ..."
    | UndefinedView(view: Name, typ: TypeId)           // "view with name ... is not defined in ..."
    | NoAttributes(schema: TypeId)                     // the schema does not answer `attributes`

  // ---------------------------------------------------------------------
  // The registry and its invariant
  // ---------------------------------------------------------------------

  /** `View.new` / `CollectionView.new`: empty contents, nothing evaluated, no memo. */
  function NewView(name: Name, schema: TypeId, kind: ViewKind, block: Option<seq<Decl>>, lazy: Option<ViewId>): ViewState {
    ViewState(name, schema, kind, [], block, lazy, None)
  }

  function Alloc(reg: Registry, vs: ViewState): Registry {
    reg.(views := reg.views[reg.next := vs], next := reg.next + 1)
  }

  /** `@contents[name] = e` on view `v`. */
  function SetEntry(reg: Registry, v: ViewId, name: Name, e: Entry): Registry
    requires v in reg.views
  {
    reg.(views := reg.views[v := reg.views[v].(contents := Put(reg.views[v].contents, name, e))])
  }

  /** The member type of a collection type (`type.member_attribute.type`), if `t` is one. */
  function MemberOf(reg: Registry, t: TypeId): Option<TypeId> {
    if t in reg.types && reg.types[t].Collection? then Some(reg.types[t].member) else None
  }

  /** `type < Praxis::Blueprint`. */
  predicate IsBlueprint(reg: Registry, t: TypeId) {
    t in reg.types && reg.types[t].Struct? && reg.types[t].blueprint
  }

  /** `type.views`: a blueprint's named views, by name. */
  function NamedViews(reg: Registry, t: TypeId): seq<(Name, ViewId)> {
    if t in reg.named then reg.named[t] else []
  }

  /** A struct's attributes keyed by name, as `schema.attributes` hands them out. */
  function AttrTable(attrs: seq<Attribute>): (r: seq<(Name, Attribute)>)
    ensures |r| == |attrs|
    ensures forall i :: 0 <= i < |attrs| ==> r[i] == (attrs[i].name, attrs[i])
  {
    if attrs == [] then [] else [(attrs[0].name, attrs[0])] + AttrTable(attrs[1..])
  }

  /** `schema.attributes`, when the schema answers it. */
  function SchemaAttributes(reg: Registry, t: TypeId): Option<seq<(Name, Attribute)>> {
    if t in reg.types && reg.types[t].Struct? then Some(AttrTable(reg.types[t].attrs)) else None
  }

  predicate EntryIn(reg: Registry, e: Entry) {
    if e.Raw? then e.attr.typ in reg.types else e.view in reg.views
  }

  /** A view a CollectionView may copy lazily: a plain View, itself not lazy. */
  predicate MemberViewOk(reg: Registry, w: ViewId) {
    w in reg.views && reg.views[w].kind == Standard && reg.views[w].lazy.None?
  }

  predicate WfViewState(reg: Registry, vs: ViewState) {
    && vs.schema in reg.types
    && UniqueNames(vs.contents)
    && (forall i :: 0 <= i < |vs.contents| ==> EntryIn(reg, vs.contents[i].1))
    && (vs.lazy.Some? ==> MemberViewOk(reg, vs.lazy.value))
  }

  /**
   Every id the registry mentions is a view of it, ids below `next` are the
   only ones taken, and the named views of blueprints are plain Views (as
   `Blueprint.view` creates them).
   */
  predicate Wf(reg: Registry) {
    && (forall u :: u in reg.views ==> u < reg.next)
    && (forall t :: t in reg.types ==> WfType(Env(reg.types, map[]), reg.types[t]))
    && (forall u :: u in reg.views ==> WfViewState(reg, reg.views[u]))
    && (forall t, i :: t in reg.named && 0 <= i < |reg.named[t]| ==> MemberViewOk(reg, reg.named[t][i].1))
  }

  /** `b` keeps every view of `a` with its name, schema, kind and laziness cleared or not. */
  predicate Grows(a: Registry, b: Registry) {
    && b.types == a.types && b.named == a.named && a.next <= b.next
    && forall u :: u in a.views ==>
         && u in b.views
         && b.views[u].name == a.views[u].name
         && b.views[u].schema == a.views[u].schema
         && b.views[u].kind == a.views[u].kind
         && (a.views[u].lazy.None? ==> b.views[u].lazy.None?)
  }

  /** Nothing but view `v` and newly allocated views changed. */
  predicate OnlyTouches(a: Registry, b: Registry, v: ViewId) {
    forall u :: u in a.views && u != v ==> u in b.views && b.views[u] == a.views[u]
  }

  lemma GrowsTrans(a: Registry, b: Registry, c: Registry)
    requires Grows(a, b) && Grows(b, c)
    ensures Grows(a, c)
  {
  }

  lemma ViewStateMono(a: Registry, b: Registry, vs: ViewState)
    requires Grows(a, b) && WfViewState(a, vs)
    ensures WfViewState(b, vs)
  {
    if vs.lazy.Some? {
      assert MemberViewOk(a, vs.lazy.value);
    }
    forall i | 0 <= i < |vs.contents|
      ensures EntryIn(b, vs.contents[i].1)
    {
      assert EntryIn(a, vs.contents[i].1);
    }
  }

  /** A registry that grew from a well-formed one, every view of it well-formed, is well-formed. */
  lemma WfFrom(a: Registry, b: Registry)
    requires Wf(a) && Grows(a, b)
    requires forall u :: u in b.views ==> u < b.next && WfViewState(b, b.views[u])
    ensures Wf(b)
  {
    forall t, i | t in b.named && 0 <= i < |b.named[t]|
      ensures MemberViewOk(b, b.named[t][i].1)
    {
      assert MemberViewOk(a, a.named[t][i].1);
    }
  }

  lemma SetEntryWf(reg: Registry, v: ViewId, name: Name, e: Entry)
    requires Wf(reg) && v in reg.views && EntryIn(reg, e)
    ensures Wf(SetEntry(reg, v, name, e)) && Grows(reg, SetEntry(reg, v, name, e))
    ensures OnlyTouches(reg, SetEntry(reg, v, name, e), v)
  {
    var r := SetEntry(reg, v, name, e);
    assert Grows(reg, r);
    PutMembers(reg.views[v].contents, name, e);
    forall u | u in r.views
      ensures u < r.next && WfViewState(r, r.views[u])
    {
      ViewStateMono(reg, r, reg.views[u]);
      if u == v {
        var old_ := reg.views[v];
        var cs := r.views[v].contents;
        assert WfViewState(reg, old_);
        PutUnique(old_.contents, name, e);
        forall i | 0 <= i < |cs|
          ensures EntryIn(r, cs[i].1)
        {
          if cs[i] != (name, e) {
            var j :| 0 <= j < |old_.contents| && old_.contents[j] == cs[i];
            assert EntryIn(r, old_.contents[j].1);
          }
        }
      }
    }
    WfFrom(reg, r);
  }

  /** View `v` replaced by `vs`. */
  function SetView(reg: Registry, v: ViewId, vs: ViewState): Registry {
    reg.(views := reg.views[v := vs])
  }

  /** Replacing a view by a well-formed one with the same name, schema and kind, no lazier, keeps the invariant. */
  lemma SetViewWf(reg: Registry, v: ViewId, vs: ViewState)
    requires Wf(reg) && v in reg.views && WfViewState(reg, vs)
    requires vs.name == reg.views[v].name && vs.schema == reg.views[v].schema && vs.kind == reg.views[v].kind
    requires reg.views[v].lazy.None? ==> vs.lazy.None?
    ensures Wf(SetView(reg, v, vs)) && Grows(reg, SetView(reg, v, vs))
  {
    var r := SetView(reg, v, vs);
    assert Grows(reg, r);
    forall u | u in r.views
      ensures u < r.next && WfViewState(r, r.views[u])
    {
      if u == v {
        ViewStateMono(reg, r, vs);
      } else {
        ViewStateMono(reg, r, reg.views[u]);
      }
    }
    WfFrom(reg, r);
  }

  lemma AllocWf(reg: Registry, vs: ViewState)
    requires Wf(reg) && WfViewState(reg, vs)
    ensures Wf(Alloc(reg, vs)) && Grows(reg, Alloc(reg, vs)) && reg.next !in reg.views
    ensures OnlyTouches(reg, Alloc(reg, vs), reg.next)
  {
    var r := Alloc(reg, vs);
    assert reg.next !in reg.views;
    assert Grows(reg, r);
    forall u | u in r.views
      ensures u < r.next && WfViewState(r, r.views[u])
    {
      if u == reg.next {
        ViewStateMono(reg, r, vs);
      } else {
        ViewStateMono(reg, r, reg.views[u]);
      }
    }
    WfFrom(reg, r);
  }

  // ---------------------------------------------------------------------
  // `attribute`
  // ---------------------------------------------------------------------

  /** The type a field without a block is looked at through: a collection's member type, else its own. */
  function Target(reg: Registry, a: Attribute): TypeId {
    MemberOf(reg, a.typ).GetOr(a.typ)
  }

  /** `opts[:view] || :default`. */
  function ViewNameOf(d: Decl): Name {
    d.view.GetOr("default")
  }

  /** The attribute `d` names in the schema of view `v`, when there is one. */
  function Declared(reg: Registry, v: ViewId, d: Decl): Option<Attribute>
    requires v in reg.views
  {
    if d.name.Sym? && SchemaAttributes(reg, reg.views[v].schema).Some? then
      Lookup(SchemaAttributes(reg, reg.views[v].schema).value, d.name.name)
    else None
  }

  /** `b` is `a` with entry `name` of view `v` set to `e`, and possibly one view allocated. */
  predicate Stored(a: Registry, b: Registry, v: ViewId, name: Name, e: Entry) {
    && v in a.views && v in b.views
    && b.views[v] == a.views[v].(contents := Put(a.views[v].contents, name, e))
    && Grows(a, b) && OnlyTouches(a, b, v)
  }

  /** Where a declared field goes: the entry stored under its name, and the view created for it, if any. */
  datatype Placement = Placement(entry: Entry, created: Option<ViewState>)

  /** A created view takes the next id and the entry points at it; otherwise the entry refers to what exists. */
  predicate PlacementOk(reg: Registry, p: Placement) {
    if p.created.Some? then p.entry == Nested(reg.next) && WfViewState(reg, p.created.value)
    else EntryIn(reg, p.entry)
  }

  /**
   The classification `View#attribute(name, **opts, &block)` makes. A
   non-Symbol name and a name the schema does not have are rejected; with a
   block the field becomes a new View (a CollectionView over the member type
   for a collection); without one a blueprint field (or a collection of one)
   takes that blueprint's view `opts[:view] || :default`, wrapped in a new
   lazy CollectionView for a collection, and refused when that view is not
   defined; any other field is the raw attribute.
   */
  function Classify(reg: Registry, v: ViewId, d: Decl): (r: Result<Placement, ViewError>)
    requires Wf(reg) && v in reg.views
    ensures d.name.NotSym? ==> r == Err(NotASymbol(d.name.inspect))
    ensures d.name.Sym? && SchemaAttributes(reg, reg.views[v].schema).None? ==>
      r == Err(NoAttributes(reg.views[v].schema))
    ensures d.name.Sym? && SchemaAttributes(reg, reg.views[v].schema).Some?
            && !HasKey(SchemaAttributes(reg, reg.views[v].schema).value, d.name.name) ==>
      r == Err(NotAllowed(d.name.name, reg.views[v].name, reg.views[v].schema))
    ensures Declared(reg, v, d).Some? && d.block.Some? ==>
      var a := Declared(reg, v, d).value;
      r == Ok(Placement(Nested(reg.next), Some(
             if MemberOf(reg, a.typ).Some? then NewView(d.name.name, MemberOf(reg, a.typ).value, CollectionKind, d.block, None)
             else NewView(d.name.name, a.typ, Standard, d.block, None))))
    ensures Declared(reg, v, d).Some? && d.block.None? && IsBlueprint(reg, Target(reg, Declared(reg, v, d).value)) ==>
      var a := Declared(reg, v, d).value;
      var named := Lookup(NamedViews(reg, Target(reg, a)), ViewNameOf(d));
      && (named.None? ==> r == Err(UndefinedView(ViewNameOf(d), Target(reg, a))))
      && (named.Some? && MemberOf(reg, a.typ).Some? ==>
            r == Ok(Placement(Nested(reg.next), Some(NewView(ViewNameOf(d), Target(reg, a), CollectionKind, None, named)))))
      && (named.Some? && MemberOf(reg, a.typ).None? ==> r == Ok(Placement(Nested(named.value), None)))
    ensures Declared(reg, v, d).Some? && d.block.None? && !IsBlueprint(reg, Target(reg, Declared(reg, v, d).value)) ==>
      r == Ok(Placement(Raw(Declared(reg, v, d).value), None))
    ensures r.Ok? ==> Declared(reg, v, d).Some? && Declared(reg, v, d).value.name == d.name.name
    ensures r.Ok? ==> PlacementOk(reg, r.value)
  {
    var vs := reg.views[v];
    match d.name
    case NotSym(s) => Err(NotASymbol(s))
    case Sym(n) =>
      match SchemaAttributes(reg, vs.schema)
      case None => Err(NoAttributes(vs.schema))
      case Some(table) =>
        match Lookup(table, n)
        case None => Err(NotAllowed(n, vs.name, vs.schema))
        case Some(a) =>
          assert a.name == n && a.typ in reg.types by {
            var i :| 0 <= i < |table| && table[i] == (n, a);
            var attrs := reg.types[vs.schema].attrs;
            assert table[i] == (attrs[i].name, attrs[i]);
            assert WfType(Env(reg.types, map[]), reg.types[vs.schema]);
          }
          assert MemberOf(reg, a.typ).Some? ==> MemberOf(reg, a.typ).value in reg.types by {
            if MemberOf(reg, a.typ).Some? {
              assert WfType(Env(reg.types, map[]), reg.types[a.typ]);
            }
          }
          if d.block.Some? then
            var nv := match MemberOf(reg, a.typ)
                      case Some(mt) => NewView(n, mt, CollectionKind, d.block, None)
                      case None => NewView(n, a.typ, Standard, d.block, None);
            Ok(Placement(Nested(reg.next), Some(nv)))
          else
            var target := Target(reg, a);
            if IsBlueprint(reg, target) then
              var viewName := ViewNameOf(d);
              match Lookup(NamedViews(reg, target), viewName)
              case None => Err(UndefinedView(viewName, target))
              case Some(w) =>
                assert MemberViewOk(reg, w) by {
                  var i :| 0 <= i < |NamedViews(reg, target)| && NamedViews(reg, target)[i] == (viewName, w);
                  assert target in reg.named;
                }
                if MemberOf(reg, a.typ).Some? then
                  Ok(Placement(Nested(reg.next), Some(NewView(viewName, target, CollectionKind, None, Some(w)))))
                else
                  Ok(Placement(Nested(w), None))
            else
              Ok(Placement(Raw(a), None))
  }

  /** `@contents[name] = ...` with a classified field: the created view (if any) allocated, the entry stored. */
  function Place(reg: Registry, v: ViewId, name: Name, p: Placement): (r: Registry)
    requires Wf(reg) && v in reg.views && PlacementOk(reg, p)
    ensures Wf(r) && Stored(reg, r, v, name, p.entry)
    ensures r.next == if p.created.Some? then reg.next + 1 else reg.next
    ensures p.created.Some? ==> reg.next !in reg.views && reg.next in r.views && r.views[reg.next] == p.created.value
  {
    match p.created
    case Some(c) =>
      AllocWf(reg, c);
      SetEntryWf(Alloc(reg, c), v, name, p.entry);
      GrowsTrans(reg, Alloc(reg, c), SetEntry(Alloc(reg, c), v, name, p.entry));
      SetEntry(Alloc(reg, c), v, name, p.entry)
    case None =>
      SetEntryWf(reg, v, name, p.entry);
      SetEntry(reg, v, name, p.entry)
  }

  /**
   `View#attribute(name, **opts, &block)`: the field is classified and
   stored under its name, keeping its place when the name is already there;
   a new view gets id `reg.next`. On an error nothing changes.
   */
  function ViewAttribute(reg: Registry, v: ViewId, d: Decl): (r: Result<Registry, ViewError>)
    requires Wf(reg) && v in reg.views
    ensures r.Ok? <==> Classify(reg, v, d).Ok?
    ensures r.Err? ==> r.error == Classify(reg, v, d).error
    ensures r.Ok? ==>
      var p := Classify(reg, v, d).value;
      && d.name.Sym? && Wf(r.value) && Stored(reg, r.value, v, d.name.name, p.entry)
      && (p.created.Some? ==> reg.next in r.value.views && r.value.views[reg.next] == p.created.value)
  {
    match Classify(reg, v, d)
    case Err(e) => Err(e)
    case Ok(p) => Ok(Place(reg, v, d.name.name, p))
  }

  // ---------------------------------------------------------------------
  // `contents`: the block runs once; a CollectionView copies lazily
  // ---------------------------------------------------------------------

  /**
   The `attribute` calls of a block, in order, on view `v`. A failing call
   stops the block; the entries already stored stay.
   */
  function RunDecls(reg: Registry, v: ViewId, ds: seq<Decl>): (res: (Registry, Option<ViewError>))
    requires Wf(reg) && v in reg.views
    ensures Wf(res.0) && Grows(reg, res.0) && OnlyTouches(reg, res.0, v)
    ensures res.0.views[v].block == reg.views[v].block && res.0.views[v].lazy == reg.views[v].lazy
    ensures res.0.views[v].expanded == reg.views[v].expanded
    decreases |ds|
  {
    if ds == [] then (reg, None)
    else
      match ViewAttribute(reg, v, ds[0])
      case Err(e) => (reg, Some(e))
      case Ok(r1) =>
        var res := RunDecls(r1, v, ds[1..]);
        GrowsTrans(reg, r1, res.0);
        res
  }

  /** `View#contents`' first half: run the pending block, then forget it; a raising block stays pending. */
  function RunBlock(reg: Registry, v: ViewId): (res: (Registry, Option<ViewError>))
    requires Wf(reg) && v in reg.views
    ensures Wf(res.0) && Grows(reg, res.0) && OnlyTouches(reg, res.0, v)
    ensures res.0.views[v].lazy == reg.views[v].lazy && res.0.views[v].expanded == reg.views[v].expanded
    ensures res.1.None? ==> res.0.views[v].block.None?
    ensures res.1.Some? ==> res.0.views[v].block == reg.views[v].block
    ensures reg.views[v].block.None? ==> res == (reg, None)
  {
    match reg.views[v].block
    case None => (reg, None)
    case Some(ds) =>
      var (r1, e) := RunDecls(reg, v, ds);
      if e.Some? then (r1, e)
      else
        var r2 := r1.(views := r1.views[v := r1.views[v].(block := None)]);
        assert Grows(r1, r2);
        forall u | u in r2.views
          ensures u < r2.next && WfViewState(r2, r2.views[u])
        {
          ViewStateMono(r1, r2, r1.views[u]);
        }
        WfFrom(r1, r2);
        GrowsTrans(reg, r1, r2);
        (r2, None)
  }

  /** A CollectionView's lazy step: copy the member view's (evaluated) contents once, then drop the link. */
  function CopyLazy(reg: Registry, v: ViewId): (res: (Registry, Option<ViewError>))
    requires Wf(reg) && v in reg.views
    ensures Wf(res.0) && Grows(reg, res.0) && v in res.0.views
    ensures res.0.views[v].block == reg.views[v].block && res.0.views[v].expanded == reg.views[v].expanded
    ensures res.1.None? ==> res.0.views[v].lazy.None?
    ensures reg.views[v].lazy.None? ==> res == (reg, None)
    ensures reg.views[v].lazy.Some? ==>
      var w := reg.views[v].lazy.value;
      var rw := RunBlock(reg, w);
      && (rw.1.Some? ==> res == rw)
      && (rw.1.None? ==> res.1.None? && res.0.views[v].contents == rw.0.views[w].contents)
  {
    match reg.views[v].lazy
    case None => (reg, None)
    case Some(w) =>
      assert MemberViewOk(reg, w) && w != v;
      var (rw, ew) := RunBlock(reg, w);
      if ew.Some? then (rw, ew)
      else
        var vs := rw.views[v].(contents := rw.views[w].contents, lazy := None);
        assert WfViewState(rw, rw.views[w]) && WfViewState(rw, rw.views[v]);
        SetViewWf(rw, v, vs);
        GrowsTrans(reg, rw, SetView(rw, v, vs));
        (SetView(rw, v, vs), None)
  }

  /**
   `contents`, for a View and for a CollectionView: the lazy copy (a
   CollectionView built from a member view), then the pending block, then
   `@contents`. Every view other than `v` and the member view is left alone.
   */
  function Contents(reg: Registry, v: ViewId): (res: (Registry, Result<seq<(Name, Entry)>, ViewError>))
    requires Wf(reg) && v in reg.views
    ensures Wf(res.0) && Grows(reg, res.0) && v in res.0.views
    ensures res.0.views[v].expanded == reg.views[v].expanded
    ensures res.1.Ok? ==>
      && res.0.views[v].block.None? && res.0.views[v].lazy.None?
      && res.1.value == res.0.views[v].contents
    ensures reg.views[v].block.None? && reg.views[v].lazy.None? ==> res == (reg, Ok(reg.views[v].contents))
  {
    var (r1, e1) := CopyLazy(reg, v);
    if e1.Some? then (r1, Err(e1.value))
    else
      var (r2, e2) := RunBlock(r1, v);
      GrowsTrans(reg, r1, r2);
      if e2.Some? then (r2, Err(e2.value)) else (r2, Ok(r2.views[v].contents))
  }

  /** For a view that is not lazy, the first `contents` runs its declaration block and answers with the result. */
  lemma ContentsRunsBlock(reg: Registry, v: ViewId)
    requires Wf(reg) && v in reg.views && reg.views[v].lazy.None? && reg.views[v].block.Some?
    ensures var run := RunDecls(reg, v, reg.views[v].block.value);
      && (Contents(reg, v).1.Ok? <==> run.1.None?)
      && (run.1.None? ==> Contents(reg, v).1 == Ok(run.0.views[v].contents))
  {
    assert CopyLazy(reg, v) == (reg, None);
  }

  /** The declaration block runs at most once: a second `contents` returns the same entries and changes nothing. */
  lemma ContentsOnce(reg: Registry, v: ViewId)
    requires Wf(reg) && v in reg.views && Contents(reg, v).1.Ok?
    ensures Contents(Contents(reg, v).0, v) == (Contents(reg, v).0, Contents(reg, v).1)
  {
  }

  /**
   Built from a member view, a CollectionView's contents are a copy of that
   view's contents (the member's block running first if it has not yet).
   */
  lemma CollectionCopiesMember(reg: Registry, v: ViewId)
    requires Wf(reg) && v in reg.views && reg.views[v].lazy.Some? && reg.views[v].block.None?
    ensures var w := reg.views[v].lazy.value;
      w in reg.views && Contents(reg, v).1 == Contents(reg, w).1
  {
    var w := reg.views[v].lazy.value;
    assert MemberViewOk(reg, w);
    var rw := RunBlock(reg, w);
    if rw.1.None? {
      var r1 := CopyLazy(reg, v).0;
      assert RunBlock(r1, v) == (r1, None);
      assert Contents(reg, w) == (rw.0, Ok(rw.0.views[w].contents)) by {
        assert CopyLazy(reg, w) == (reg, None);
      }
    } else {
      assert CopyLazy(reg, w) == (reg, None);
    }
  }

  /**
   Once copied, the link to the member view is gone: whatever later happens
   to other views, `contents` keeps answering with the first copy.
   */
  lemma CopiedOnce(reg: Registry, v: ViewId, later: Registry)
    requires Wf(reg) && v in reg.views && Contents(reg, v).1.Ok?
    requires Wf(later) && v in later.views && later.views[v] == Contents(reg, v).0.views[v]
    ensures Contents(later, v) == (later, Contents(reg, v).1)
  {
  }

  // ---------------------------------------------------------------------
  // The graph the expander walks
  // ---------------------------------------------------------------------

  /** Every declaration block has run and no lazy copy is pending, so `contents` changes nothing. */
  predicate Evaluated(reg: Registry) {
    forall u :: u in reg.views ==> reg.views[u].block.None? && reg.views[u].lazy.None?
  }

  /** The schema graph of a registry: its types, and each view with the contents it holds. */
  function EnvOf(reg: Registry): (env: Env)
    ensures env.types == reg.types && env.views.Keys == reg.views.Keys
    ensures forall u :: u in reg.views ==>
      env.views[u] == ViewDef(reg.views[u].name, reg.views[u].kind, reg.views[u].contents)
  {
    Env(reg.types, map u | u in reg.views :: ViewDef(reg.views[u].name, reg.views[u].kind, reg.views[u].contents))
  }

  /**
   A well-formed registry is a well-formed graph for the expander; once every
   view is evaluated, each view's contents in that graph are exactly what its
   `contents` answers.
   */
  lemma EnvOfWf(reg: Registry)
    requires Wf(reg)
    ensures WfEnv(EnvOf(reg))
    ensures Evaluated(reg) ==>
      forall u :: u in reg.views ==> Contents(reg, u) == (reg, Ok(EnvOf(reg).views[u].contents))
  {
    var env := EnvOf(reg);
    forall t | t in env.types ensures WfType(env, env.types[t]) {
      assert WfType(Env(reg.types, map[]), reg.types[t]);
    }
    forall u | u in env.views ensures WfView(env, env.views[u]) {
      var vs := reg.views[u];
      assert WfViewState(reg, vs);
      forall i | 0 <= i < |vs.contents| ensures WfEntry(env, vs.contents[i].1) {
        assert EntryIn(reg, vs.contents[i].1);
      }
    }
  }

  // ---------------------------------------------------------------------
  // `expanded_fields`
  // ---------------------------------------------------------------------

  /**
   `expanded_fields`: forces `contents`, then memoises the expansion.
   `FieldExpander.expand(self)` is the parameter `expand` here (the expander
   is modelled in `FieldExpander`).
   */
  function ExpandedFields(reg: Registry, v: ViewId, expand: (Registry, ViewId) -> Expansion)
    : (res: (Registry, Result<Expansion, ViewError>))
    requires Wf(reg) && v in reg.views
    ensures Wf(res.0) && Grows(reg, res.0) && v in res.0.views
    ensures res.1.Ok? ==> res.0.views[v].expanded == Some(res.1.value)
    ensures reg.views[v].expanded.Some? ==> res == (reg, Ok(reg.views[v].expanded.value))
    ensures reg.views[v].expanded.None? && res.1.Ok? ==>
      res.1.value == expand(Contents(reg, v).0, v) && res.0.views[v].block.None?
  {
    match reg.views[v].expanded
    case Some(e) => (reg, Ok(e))
    case None =>
      var (r, c) := Contents(reg, v);
      if c.Err? then (r, Err(c.error))
      else
        var e := expand(r, v);
        var vs := r.views[v].(expanded := Some(e));
        assert WfViewState(r, r.views[v]);
        SetViewWf(r, v, vs);
        GrowsTrans(reg, r, SetView(r, v, vs));
        (SetView(r, v, vs), Ok(e))
  }

  /** `expanded_fields` is computed once: later calls return the memo, whatever expander they are handed. */
  lemma ExpandedFieldsOnce(reg: Registry, v: ViewId, expand: (Registry, ViewId) -> Expansion,
                           again: (Registry, ViewId) -> Expansion)
    requires Wf(reg) && v in reg.views && ExpandedFields(reg, v, expand).1.Ok?
    ensures var res := ExpandedFields(reg, v, expand);
      ExpandedFields(res.0, v, again) == res
  {
  }

  // ---------------------------------------------------------------------
  // `describe` and `example`
  // ---------------------------------------------------------------------

  /** `{ attributes: ..., type: ... }`, each attribute described as `{view: name}` or `{}`. */
  datatype Description = Description(attributes: seq<(Name, Option<Name>)>, typ: ViewKind)

  /** `ds` describes `cs`: the same keys in order, `{view: name}` exactly for the view entries. */
  predicate Describes(reg: Registry, cs: seq<(Name, Entry)>, ds: seq<(Name, Option<Name>)>) {
    && |ds| == |cs|
    && forall i :: 0 <= i < |cs| ==>
         && ds[i].0 == cs[i].0
         && (ds[i].1.Some? <==> cs[i].1.Nested?)
         && (cs[i].1.Nested? ==> EntryIn(reg, cs[i].1) && ds[i].1 == Some(reg.views[cs[i].1.view].name))
  }

  function DescribeEntries(reg: Registry, cs: seq<(Name, Entry)>): (r: seq<(Name, Option<Name>)>)
    requires forall i :: 0 <= i < |cs| ==> EntryIn(reg, cs[i].1)
    ensures Describes(reg, cs, r)
  {
    if cs == [] then []
    else
      assert EntryIn(reg, cs[0].1);
      var head := if cs[0].1.Nested? then Some(reg.views[cs[0].1.view].name) else None;
      var tail := DescribeEntries(reg, cs[1..]);
      assert forall i :: 1 <= i < |cs| ==> cs[1..][i - 1] == cs[i];
      [(cs[0].0, head)] + tail
  }

  /** A description has the keys of what it describes. */
  lemma DescribesNames(reg: Registry, cs: seq<(Name, Entry)>, ds: seq<(Name, Option<Name>)>)
    requires Describes(reg, cs, ds)
    ensures Names(ds) == Names(cs)
  {
  }

  /**
   `describe`: one entry per content key, in order, `{view: name}` exactly
   for the View and CollectionView entries; `type` is `:standard` for a View,
   and a CollectionView's description is the same with `type: :collection`.
   */
  function Describe(reg: Registry, v: ViewId): (res: (Registry, Result<Description, ViewError>))
    requires Wf(reg) && v in reg.views
    ensures Wf(res.0) && Grows(reg, res.0)
    ensures res.1.Err? <==> Contents(reg, v).1.Err?
    ensures res.0 == Contents(reg, v).0
    ensures res.1.Ok? ==>
      && Names(res.1.value.attributes) == Names(Contents(reg, v).1.value)
      && res.1.value.typ == reg.views[v].kind
      && Describes(res.0, Contents(reg, v).1.value, res.1.value.attributes)
  {
    var (r, c) := Contents(reg, v);
    match c
    case Err(e) => (r, Err(e))
    case Ok(cs) =>
      assert WfViewState(r, r.views[v]);
      var ds := DescribeEntries(r, cs);
      DescribesNames(r, cs, ds);
      var base := Description(ds, Standard);
      (r, Ok(if r.views[v].kind == CollectionKind then base.(typ := CollectionKind) else base))
  }

  /** The members `CollectionView#example` builds: three, member `i` built under `context + ["at(i)"]`. */
  function ExampleMembers<V>(context: seq<string>, example: seq<string> -> V): (r: seq<V>)
    ensures |r| == 3
    ensures forall i :: 0 <= i < 3 ==> r[i] == example(context + [AtSegment(i)])
  {
    [example(context + [AtSegment(0)]), example(context + [AtSegment(1)]), example(context + [AtSegment(2)])]
  }
}
