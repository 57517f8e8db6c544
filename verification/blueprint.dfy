/**
 The decisions `Praxis::Blueprint` makes on its own: declaring named views
 and generating the `:master` view, defining and reading `attributes` with
 the `:reference` option, choosing between a view and a field list when
 rendering, the generated attribute readers, and the `@validating` flag of
 instance validation.
 */
module Blueprint {
  import opened Common
  import opened Schema
  import opened Masks
  import opened Views

  // ---------------------------------------------------------------------
  // Named views and the master view
  // ---------------------------------------------------------------------

  /** `Blueprint.view(name, &block)`: a new View over the blueprint, stored under `name` (replacing one). */
  function DeclareView(reg: Registry, bp: TypeId, name: Name, block: seq<Decl>): (r: Registry)
    requires Wf(reg) && bp in reg.types
    ensures Wf(r) && r.types == reg.types && r.next == reg.next + 1
    ensures Lookup(NamedViews(r, bp), name) == Some(reg.next)
    ensures forall k :: k != name ==> Lookup(NamedViews(r, bp), k) == Lookup(NamedViews(reg, bp), k)
    ensures NamedViews(r, bp) == Put(NamedViews(reg, bp), name, reg.next)
    ensures forall t :: t != bp ==> NamedViews(r, t) == NamedViews(reg, t)
    ensures reg.next !in reg.views && r.views == reg.views[reg.next := NewView(name, bp, Standard, Some(block), None)]
  {
    var vs := NewView(name, bp, Standard, Some(block), None);
    AllocWf(reg, vs);
    var a := Alloc(reg, vs);
    NameViewWf(a, bp, name, reg.next);
    NameView(a, bp, name, reg.next)
  }

  /** Blueprint `bp`'s view `name` becomes view `id`. */
  function NameView(a: Registry, bp: TypeId, name: Name, id: ViewId): Registry {
    a.(named := a.named[bp := Put(NamedViews(a, bp), name, id)])
  }

  lemma NameViewWf(a: Registry, bp: TypeId, name: Name, id: ViewId)
    requires Wf(a) && MemberViewOk(a, id)
    ensures var r := NameView(a, bp, name, id);
      && Wf(r)
      && Lookup(NamedViews(r, bp), name) == Some(id)
      && (forall k :: k != name ==> Lookup(NamedViews(r, bp), k) == Lookup(NamedViews(a, bp), k))
  {
    var r := NameView(a, bp, name, id);
    PutLookup(NamedViews(a, bp), name, id, name);
    forall k | k != name
      ensures Lookup(NamedViews(r, bp), k) == Lookup(NamedViews(a, bp), k)
    {
      PutLookup(NamedViews(a, bp), name, id, k);
    }
    PutMembers(NamedViews(a, bp), name, id);
    forall t, i | t in r.named && 0 <= i < |r.named[t]|
      ensures MemberViewOk(r, r.named[t][i].1)
    {
      if t == bp && r.named[t][i] != (name, id) {
        var j :| 0 <= j < |NamedViews(a, bp)| && NamedViews(a, bp)[j] == r.named[t][i];
        assert MemberViewOk(a, a.named[t][j].1);
      } else if t != bp {
        assert MemberViewOk(a, a.named[t][i].1);
      }
    }
  }

  /** The master view's block: `attribute name, view: :default` for every attribute, in order. */
  function MasterDecls(attrs: seq<Attribute>): (r: seq<Decl>)
    ensures |r| == |attrs|
    ensures forall i :: 0 <= i < |attrs| ==> r[i] == Decl(Sym(attrs[i].name), Some("default"), None)
  {
    if attrs == [] then [] else [Decl(Sym(attrs[0].name), Some("default"), None)] + MasterDecls(attrs[1..])
  }

  /** `generate_master_view!`: view `:master` listing every attribute of the blueprint. */
  function GenerateMasterView(reg: Registry, bp: TypeId): (r: Registry)
    requires Wf(reg) && bp in reg.types && reg.types[bp].Struct?
    ensures Wf(r)
  {
    DeclareView(reg, bp, "master", MasterDecls(reg.types[bp].attrs))
  }

  /** A master-view field can be resolved: a blueprint field's blueprint has a `:default` view. */
  predicate Ready(reg: Registry, a: Attribute) {
    IsBlueprint(reg, Target(reg, a)) ==> HasKey(NamedViews(reg, Target(reg, a)), "default")
  }

  /** Every attribute from position `k` on is ready. */
  predicate ReadyFrom(reg: Registry, attrs: seq<Attribute>, k: nat) {
    forall j :: k <= j < |attrs| ==> Ready(reg, attrs[j])
  }

  /** The master-view entry for attribute `a`: a view exactly for a blueprint field, else the raw attribute. */
  predicate MasterEntry(reg: Registry, a: Attribute, c: (Name, Entry)) {
    && c.0 == a.name
    && (c.1.Nested? <==> IsBlueprint(reg, Target(reg, a)))
    && (c.1.Raw? ==> c.1 == Raw(a))
  }

  /**
   The first `k` entries of the master view: one per attribute, in order;
   a view exactly for blueprint fields (or collections of them), the raw
   attribute for any other.
   */
  predicate MasterEntries(reg: Registry, attrs: seq<Attribute>, k: nat, cs: seq<(Name, Entry)>) {
    && k <= |attrs| && |cs| == k
    && forall i :: 0 <= i < k ==> MasterEntry(reg, attrs[i], cs[i])
  }

  lemma MasterEntriesSnoc(reg: Registry, attrs: seq<Attribute>, k: nat, cs: seq<(Name, Entry)>, e: Entry)
    requires k < |attrs| && MasterEntries(reg, attrs, k, cs) && MasterEntry(reg, attrs[k], (attrs[k].name, e))
    ensures MasterEntries(reg, attrs, k + 1, cs + [(attrs[k].name, e)])
  {
    var cs1 := cs + [(attrs[k].name, e)];
    forall i | 0 <= i < k + 1
      ensures MasterEntry(reg, attrs[i], cs1[i])
    {
      if i < k {
        assert cs1[i] == cs[i];
      }
    }
  }

  /** How the master block classifies attribute `k`: refused exactly when it is not ready. */
  lemma MasterClassify(reg: Registry, m: ViewId, bp: TypeId, k: nat)
    requires Wf(reg) && m in reg.views && reg.views[m].schema == bp && IsBlueprint(reg, bp)
    requires k < |reg.types[bp].attrs|
    ensures var attrs := reg.types[bp].attrs;
      var c := Classify(reg, m, Decl(Sym(attrs[k].name), Some("default"), None));
      && (c.Ok? <==> Ready(reg, attrs[k]))
      && (c.Ok? ==> MasterEntry(reg, attrs[k], (attrs[k].name, c.value.entry)))
  {
    var attrs := reg.types[bp].attrs;
    var d := Decl(Sym(attrs[k].name), Some("default"), None);
    var table := SchemaAttributes(reg, bp).value;
    assert WfType(Env(reg.types, map[]), reg.types[bp]);
    LookupAt(table, k);
    assert Declared(reg, m, d) == Some(attrs[k]);
  }

  /** One `attribute name, view: :default` call of the master block. */
  lemma MasterStep(reg: Registry, m: ViewId, bp: TypeId, k: nat)
    requires Wf(reg) && m in reg.views && reg.views[m].schema == bp && IsBlueprint(reg, bp)
    requires k < |reg.types[bp].attrs| && MasterEntries(reg, reg.types[bp].attrs, k, reg.views[m].contents)
    ensures var attrs := reg.types[bp].attrs;
      var r := ViewAttribute(reg, m, Decl(Sym(attrs[k].name), Some("default"), None));
      && (r.Ok? <==> Ready(reg, attrs[k]))
      && (r.Ok? ==> Grows(reg, r.value) && m in r.value.views && r.value.views[m].schema == bp
                    && MasterEntries(reg, attrs, k + 1, r.value.views[m].contents))
  {
    var attrs := reg.types[bp].attrs;
    var d := Decl(Sym(attrs[k].name), Some("default"), None);
    MasterClassify(reg, m, bp, k);
    var cs := reg.views[m].contents;
    assert !HasKey(cs, attrs[k].name);
    var r := ViewAttribute(reg, m, d);
    if r.Ok? {
      var e := Classify(reg, m, d).value.entry;
      assert r.value.views[m].contents == cs + [(attrs[k].name, e)];
      MasterEntriesSnoc(reg, attrs, k, cs, e);
    }
  }

  /** Readiness and the master-entry shape depend only on the types and the named views. */
  lemma SameSchema(a: Registry, b: Registry, attrs: seq<Attribute>, k: nat, cs: seq<(Name, Entry)>)
    requires a.types == b.types && a.named == b.named
    ensures forall j :: 0 <= j < |attrs| ==> Ready(a, attrs[j]) == Ready(b, attrs[j])
    ensures MasterEntries(a, attrs, k, cs) == MasterEntries(b, attrs, k, cs)
  {
  }

  lemma {:induction false} MasterRun(reg: Registry, m: ViewId, bp: TypeId, k: nat, ds: seq<Decl>)
    requires Wf(reg) && m in reg.views && reg.views[m].schema == bp && IsBlueprint(reg, bp)
    requires MasterEntries(reg, reg.types[bp].attrs, k, reg.views[m].contents)
    requires ds == MasterDecls(reg.types[bp].attrs[k..])
    ensures var attrs := reg.types[bp].attrs;
      var res := RunDecls(reg, m, ds);
      && (res.1.None? <==> ReadyFrom(reg, attrs, k))
      && (res.1.None? ==> MasterEntries(reg, attrs, |attrs|, res.0.views[m].contents))
    decreases |reg.types[bp].attrs| - k
  {
    var attrs := reg.types[bp].attrs;
    if k < |attrs| {
      assert ds[1..] == MasterDecls(attrs[k + 1..]);
      assert ds[0] == Decl(Sym(attrs[k].name), Some("default"), None);
      MasterStep(reg, m, bp, k);
      var r := ViewAttribute(reg, m, ds[0]);
      if r.Ok? {
        var r1 := r.value;
        assert r1.types == reg.types && r1.named == reg.named;
        assert r1.types[bp].attrs == attrs;
        SameSchema(reg, r1, attrs, k + 1, r1.views[m].contents);
        MasterRun(r1, m, bp, k + 1, ds[1..]);
        var res := RunDecls(r1, m, ds[1..]);
        assert RunDecls(reg, m, ds) == res;
        SameSchema(reg, r1, attrs, |attrs|, res.0.views[m].contents);
        var rest := ReadyFrom(r1, attrs, k + 1);
        assert res.1.None? <==> rest;
        assert Ready(reg, attrs[k]);
        assert rest <==> ReadyFrom(reg, attrs, k) by {
          if rest {
            forall j | k <= j < |attrs|
              ensures Ready(reg, attrs[j])
            {
              if j > k {
                assert Ready(r1, attrs[j]);
              }
            }
          } else {
            var j :| k + 1 <= j < |attrs| && !Ready(r1, attrs[j]);
            assert !Ready(reg, attrs[j]);
          }
        }
      } else {
        assert RunDecls(reg, m, ds).1.Some?;
      }
    } else {
      assert ds == [];
    }
  }

  /**
   The generated master view lists every attribute of the blueprint, in
   order, each with `view: :default`; forcing its contents fails exactly
   when some blueprint field's blueprint has no `:default` view.
   */
  lemma MasterViewContents(reg: Registry, bp: TypeId)
    requires Wf(reg) && IsBlueprint(reg, bp)
    ensures var r := GenerateMasterView(reg, bp);
      var attrs := reg.types[bp].attrs;
      && Lookup(NamedViews(r, bp), "master") == Some(reg.next)
      && reg.next in r.views
      && (Contents(r, reg.next).1.Ok? <==> ReadyFrom(reg, attrs, 0))
      && (Contents(r, reg.next).1.Ok? ==> MasterEntries(reg, attrs, |attrs|, Contents(r, reg.next).1.value))
  {
    var r := GenerateMasterView(reg, bp);
    var m := reg.next;
    var attrs := reg.types[bp].attrs;
    assert r.views[m] == NewView("master", bp, Standard, Some(MasterDecls(attrs)), None);
    assert IsBlueprint(r, bp) && r.types == reg.types;
    MasterBlockRun(r, m, bp, attrs);
    ReadyAfterMaster(reg, r, bp, m, attrs);
    var c := Contents(r, m).1;
    SameSchemaEntries(r, reg, attrs, c);
  }

  /** Forcing a fresh master view runs its block over the blueprint's attributes. */
  lemma MasterBlockRun(r: Registry, m: ViewId, bp: TypeId, attrs: seq<Attribute>)
    requires Wf(r) && IsBlueprint(r, bp) && m in r.views && attrs == r.types[bp].attrs
    requires r.views[m] == NewView("master", bp, Standard, Some(MasterDecls(attrs)), None)
    ensures Contents(r, m).1.Ok? <==> ReadyFrom(r, attrs, 0)
    ensures Contents(r, m).1.Ok? ==> MasterEntries(r, attrs, |attrs|, Contents(r, m).1.value)
  {
    MasterDeclsRun(r, m, bp, attrs);
    ContentsRunsBlock(r, m);
  }

  /** The master block, run from the view's empty contents. */
  lemma MasterDeclsRun(r: Registry, m: ViewId, bp: TypeId, attrs: seq<Attribute>)
    requires Wf(r) && IsBlueprint(r, bp) && m in r.views && attrs == r.types[bp].attrs
    requires r.views[m].schema == bp && r.views[m].contents == []
    ensures var run := RunDecls(r, m, MasterDecls(attrs));
      && (run.1.None? <==> ReadyFrom(r, attrs, 0))
      && (run.1.None? ==> MasterEntries(r, attrs, |attrs|, run.0.views[m].contents))
  {
    assert attrs[0..] == attrs;
    assert MasterEntries(r, attrs, 0, r.views[m].contents);
    MasterRun(r, m, bp, 0, MasterDecls(attrs));
  }

  /** Declaring `:master` does not change which fields are ready. */
  lemma ReadyAfterMaster(reg: Registry, r: Registry, bp: TypeId, m: ViewId, attrs: seq<Attribute>)
    requires r.types == reg.types
    requires NamedViews(r, bp) == Put(NamedViews(reg, bp), "master", m)
    requires forall t :: t != bp ==> NamedViews(r, t) == NamedViews(reg, t)
    ensures forall j :: 0 <= j < |attrs| ==> (Ready(r, attrs[j]) <==> Ready(reg, attrs[j]))
    ensures ReadyFrom(r, attrs, 0) <==> ReadyFrom(reg, attrs, 0)
  {
    forall j | 0 <= j < |attrs|
      ensures Ready(r, attrs[j]) <==> Ready(reg, attrs[j])
    {
      assert Target(r, attrs[j]) == Target(reg, attrs[j]);
      if Target(reg, attrs[j]) == bp {
        PutHasKey(NamedViews(reg, bp), "master", m, "default");
      }
    }
  }

  lemma SameSchemaEntries(a: Registry, b: Registry, attrs: seq<Attribute>, c: Result<seq<(Name, Entry)>, ViewError>)
    requires a.types == b.types
    ensures c.Ok? ==> (MasterEntries(a, attrs, |attrs|, c.value) <==> MasterEntries(b, attrs, |attrs|, c.value))
  {
  }

  // ---------------------------------------------------------------------
  // `attributes`, `:reference` and finalisation
  // ---------------------------------------------------------------------

  /** An option value: nil, a class, or anything else. */
  datatype OptVal = ONil | OClass(cls: TypeId) | OOther(text: string)

  /**
   A Blueprint class: its `reference`, `@options`, whether an attributes
   block is waiting for finalisation, whether `Struct` is defined, and
   `@attribute` once defined.
   */
  datatype ClassState = ClassState(
    id: TypeId,
    reference: Option<TypeId>,
    options: seq<(Name, OptVal)>,
    blockPending: bool,
    structDefined: bool,
    attribute: Option<seq<Attribute>>)

  datatype BlueprintError =
    | Redefining(cls: TypeId)                       // "Redefining Blueprint attributes is not currently supported"
    | ReferenceMismatch(given: OptVal, current: OptVal)
    | AttributesUndefined(cls: TypeId)              // "@attribute not defined yet for ..."
    | ViewUndefined(view: Name, cls: TypeId)        // "view with name ... is not defined in ..."

  /** `Blueprint.inherited`: a new subclass with no options, no reference and no attributes. */
  function NewClass(id: TypeId): ClassState {
    ClassState(id, None, [], false, false, None)
  }

  function RefValue(r: Option<TypeId>): OptVal {
    if r.Some? then OClass(r.value) else ONil
  }

  /** `a.merge!(b)`: each key of `b`, in order, put into `a`. */
  function Merge(a: seq<(Name, OptVal)>, b: seq<(Name, OptVal)>): seq<(Name, OptVal)>
    decreases |b|
  {
    if b == [] then a else Merge(Put(a, b[0].0, b[0].1), b[1..])
  }

  /** After `merge!`, a key of `b` has `b`'s value and any other key keeps `a`'s. */
  lemma {:induction false} MergeLookup(a: seq<(Name, OptVal)>, b: seq<(Name, OptVal)>, k: Name)
    requires UniqueNames(b)
    ensures Lookup(Merge(a, b), k) == if HasKey(b, k) then Lookup(b, k) else Lookup(a, k)
    decreases |b|
  {
    if b != [] {
      MergeLookup(Put(a, b[0].0, b[0].1), b[1..], k);
      PutLookup(a, b[0].0, b[0].1, k);
      if b[0].0 == k {
        assert !HasKey(b[1..], k);
      } else {
        assert HasKey(b, k) <==> HasKey(b[1..], k) by {
          if HasKey(b, k) {
            var i :| 0 <= i < |b| && b[i].0 == k;
            assert b[1..][i - 1].0 == k;
          }
        }
      }
    }
  }

  /**
   `Blueprint.attributes(opts, &block)`: refused once `Struct` exists and
   when `opts[:reference]` differs from the class's reference; otherwise
   `opts` is merged into `@options` with `:reference` set to the class's
   reference, or the class itself when it has none, the block is kept for
   finalisation and the current `@attribute` is returned.
   */
  function DefineAttributes(cls: ClassState, opts: seq<(Name, OptVal)>)
    : (r: Result<(ClassState, Option<seq<Attribute>>), BlueprintError>)
    requires UniqueNames(opts)
    ensures cls.structDefined ==> r == Err(Redefining(cls.id))
    ensures !cls.structDefined && HasKey(opts, "reference") && Lookup(opts, "reference").value != RefValue(cls.reference) ==>
      r == Err(ReferenceMismatch(Lookup(opts, "reference").value, RefValue(cls.reference)))
    ensures r.Ok? <==>
      !cls.structDefined && (HasKey(opts, "reference") ==> Lookup(opts, "reference").value == RefValue(cls.reference))
    ensures r.Ok? ==>
      var c := r.value.0;
      && Lookup(c.options, "reference") == Some(OClass(cls.reference.GetOr(cls.id)))
      && (forall k :: k != "reference" ==>
            Lookup(c.options, k) == if HasKey(opts, k) then Lookup(opts, k) else Lookup(cls.options, k))
      && c == cls.(options := c.options, blockPending := true)
      && r.value.1 == cls.attribute
  {
    if cls.structDefined then Err(Redefining(cls.id))
    else if HasKey(opts, "reference") && Lookup(opts, "reference").value != RefValue(cls.reference) then
      Err(ReferenceMismatch(Lookup(opts, "reference").value, RefValue(cls.reference)))
    else
      var ref := if cls.reference.Some? then OClass(cls.reference.value) else OClass(cls.id);
      var opts' := Put(opts, "reference", ref);
      PutUnique(opts, "reference", ref);
      var merged := Merge(cls.options, opts');
      MergeLookup(cls.options, opts', "reference");
      PutLookup(opts, "reference", ref, "reference");
      assert forall k :: k != "reference" ==>
          Lookup(merged, k) == if HasKey(opts, k) then Lookup(opts, k) else Lookup(cls.options, k) by {
        forall k | k != "reference"
          ensures Lookup(merged, k) == if HasKey(opts, k) then Lookup(opts, k) else Lookup(cls.options, k)
        {
          MergeLookup(cls.options, opts', k);
          PutLookup(opts, "reference", ref, k);
        }
      }
      Ok((cls.(options := merged, blockPending := true), cls.attribute))
  }

  /** `Blueprint.attributes` without a block: the struct's attributes, refused before they are defined. */
  function ReadAttributes(cls: ClassState): (r: Result<seq<Attribute>, BlueprintError>)
    ensures cls.attribute.None? <==> r.Err?
    ensures r.Err? ==> r.error == AttributesUndefined(cls.id)
    ensures r.Ok? ==> r.value == cls.attribute.value
  {
    if cls.attribute.None? then Err(AttributesUndefined(cls.id)) else Ok(cls.attribute.value)
  }

  /**
   `_finalize!` with a pending attributes block: `define_attribute!` (the
   struct Attributor builds from the block is the blueprint's type in the
   registry), then `generate_master_view!` unless a `:master` view exists.
   */
  function Finalize(cls: ClassState, reg: Registry): (res: (ClassState, Registry))
    requires Wf(reg) && IsBlueprint(reg, cls.id)
    ensures Wf(res.1)
    ensures !cls.blockPending ==> res == (cls, reg)
    ensures cls.blockPending ==>
      && res.0 == cls.(blockPending := false, structDefined := true, attribute := Some(reg.types[cls.id].attrs))
      && HasKey(NamedViews(res.1, cls.id), "master")
    ensures cls.blockPending && HasKey(NamedViews(reg, cls.id), "master") ==> res.1 == reg
    ensures cls.blockPending && !HasKey(NamedViews(reg, cls.id), "master") ==> res.1 == GenerateMasterView(reg, cls.id)
  {
    if !cls.blockPending then (cls, reg)
    else
      var c := cls.(blockPending := false, structDefined := true, attribute := Some(reg.types[cls.id].attrs));
      if HasKey(NamedViews(reg, cls.id), "master") then (c, reg)
      else
        var r := GenerateMasterView(reg, cls.id);
        assert Lookup(NamedViews(r, cls.id), "master").Some?;
        (c, r)
  }

  /** Attributes are defined once: after finalisation a new attributes block is refused, and they can be read. */
  lemma NoRedefinition(cls: ClassState, reg: Registry, opts: seq<(Name, OptVal)>)
    requires Wf(reg) && IsBlueprint(reg, cls.id) && cls.blockPending && UniqueNames(opts)
    ensures DefineAttributes(Finalize(cls, reg).0, opts) == Err(Redefining(cls.id))
    ensures ReadAttributes(Finalize(cls, reg).0) == Ok(reg.types[cls.id].attrs)
  {
  }

  /** Reading the attributes of a class that has only declared them is refused. */
  lemma ReadBeforeDefinition(id: TypeId, opts: seq<(Name, OptVal)>)
    requires UniqueNames(opts) && (HasKey(opts, "reference") ==> Lookup(opts, "reference").value == ONil)
    ensures DefineAttributes(NewClass(id), opts).Ok?
    ensures ReadAttributes(DefineAttributes(NewClass(id), opts).value.0) == Err(AttributesUndefined(id))
    ensures DefineAttributes(NewClass(id), opts).value.1 == None
  {
  }

  // ---------------------------------------------------------------------
  // `render`: a view or a field list
  // ---------------------------------------------------------------------

  /** `opts[:fields]`: absent, an Array of names, or a Hash / `true` mask. */
  datatype FieldsArg = NoFields | FieldList(names: seq<Name>) | FieldMask(mask: Mask)

  /** `render(view_name = nil, **opts)`: the positional view name, `opts[:view]` (when the key is given), `opts[:fields]`. */
  datatype RenderRequest = RenderRequest(positional: Option<Name>, viewKey: Option<Option<Name>>, fields: FieldsArg)

  /** What `render` goes on with: a view's `render`, or expansion and rendering of a mask. */
  datatype RenderPlan = ByView(view: ViewId) | ByFields(mask: Mask)

  /** `fields.each_with_object({}) { |field, hash| hash[field] = true }`. */
  function TrueEntries(names: seq<Name>): (r: seq<(Name, Mask)>)
    ensures UniqueNames(r)
    ensures forall k :: HasKey(r, k) <==> k in names
    ensures forall i :: 0 <= i < |r| ==> r[i].1 == All
    decreases |names|
  {
    if names == [] then []
    else
      var init := names[..|names| - 1];
      var last := names[|names| - 1];
      var prev := TrueEntries(init);
      PutUnique(prev, last, All);
      PutMembers(prev, last, All);
      forall k
        ensures HasKey(Put(prev, last, All), k) <==> k in names
      {
        PutHasKey(prev, last, All, k);
        assert names == init + [last];
      }
      Put(prev, last, All)
  }

  /** The view name `render` settles on: the positional one, else `opts[:view]`; `:default` when neither it nor fields are given. */
  function ChosenView(req: RenderRequest): Option<Name> {
    var named := if req.positional.Some? then req.positional
                 else if req.viewKey.Some? then req.viewKey.value
                 else None;
    if named.None? && req.fields.NoFields? then Some("default") else named
  }

  /**
   `Blueprint#render`'s decision. A chosen view name wins and the fields are
   ignored; an unknown view name is an error naming it. Otherwise an Array
   of field names becomes a one-level mask giving each name `true`.
   */
  function PlanRender(reg: Registry, bp: TypeId, req: RenderRequest): (r: Result<RenderPlan, BlueprintError>)
    ensures ChosenView(req).Some? ==>
      var n := ChosenView(req).value;
      && (HasKey(NamedViews(reg, bp), n) ==> r == Ok(ByView(Lookup(NamedViews(reg, bp), n).value)))
      && (!HasKey(NamedViews(reg, bp), n) ==> r == Err(ViewUndefined(n, bp)))
    ensures ChosenView(req).None? && req.fields.FieldList? ==>
      && r.Ok? && r.value.ByFields? && r.value.mask.Fields?
      && var es := r.value.mask.entries;
         && UniqueNames(es)
         && (forall k :: HasKey(es, k) <==> k in req.fields.names)
         && (forall i :: 0 <= i < |es| ==> es[i].1 == All)
    ensures ChosenView(req).None? && req.fields.FieldMask? ==> r == Ok(ByFields(req.fields.mask))
  {
    match ChosenView(req)
    case Some(n) =>
      (match Lookup(NamedViews(reg, bp), n)
       case Some(w) => Ok(ByView(w))
       case None => Err(ViewUndefined(n, bp)))
    case None =>
      match req.fields
      case FieldList(names) => Ok(ByFields(Fields(TrueEntries(names))))
      case FieldMask(m) => Ok(ByFields(m))
      case NoFields => assert false; Ok(ByFields(All))
  }

  /** With a view named, or neither a view nor fields, `render` ignores `fields`. */
  lemma ViewIgnoresFields(reg: Registry, bp: TypeId, req: RenderRequest, other: FieldsArg)
    requires req.positional.Some? || (req.viewKey.Some? && req.viewKey.value.Some?)
    ensures PlanRender(reg, bp, req) == PlanRender(reg, bp, req.(fields := other))
  {
  }

  /** With neither a view nor fields, `render` uses the `:default` view. */
  lemma DefaultView(reg: Registry, bp: TypeId)
    ensures PlanRender(reg, bp, RenderRequest(None, None, NoFields))
         == PlanRender(reg, bp, RenderRequest(Some("default"), None, FieldMask(All)))
  {
  }

  // ---------------------------------------------------------------------
  // Generated readers
  // ---------------------------------------------------------------------

  /**
   The reader `define_reader!(name)` defines: a decorator that answers the
   name wins; otherwise the wrapped object's value, returned as is when nil
   or already of the attribute's type, else loaded. The decorator object is
   a name-keyed list of what it answers; `load` and the type test are
   parameters (they belong to Attributor).
   */
  function Read<V>(decorators: Option<seq<(Name, V)>>, source: Name -> V, name: Name,
                   isNil: V -> bool, isTyped: V -> bool, load: V -> V): (r: V)
    ensures decorators.Some? && HasKey(decorators.value, name) ==> r == Lookup(decorators.value, name).value
    ensures !(decorators.Some? && HasKey(decorators.value, name)) ==>
      r == (if isNil(source(name)) || isTyped(source(name)) then source(name) else load(source(name)))
  {
    if decorators.Some? && HasKey(decorators.value, name) then Lookup(decorators.value, name).value
    else
      var value := source(name);
      if isNil(value) || isTyped(value) then value else load(value)
  }

  /** Without a decorator for it, a reader hands out nil or a value of the attribute's type, when `load` produces one. */
  lemma ReaderTyped<V(!new)>(decorators: Option<seq<(Name, V)>>, source: Name -> V, name: Name,
                       isNil: V -> bool, isTyped: V -> bool, load: V -> V)
    requires !(decorators.Some? && HasKey(decorators.value, name))
    requires forall x: V :: isTyped(load(x))
    ensures var r := Read(decorators, source, name, isNil, isTyped, load);
      isNil(r) || isTyped(r)
  {
    var loaded := load(source(name));
    assert isTyped(loaded);
  }

  /** Reading a value that is already typed, when no decorator answers, does not load it again. */
  lemma ReaderKeepsTyped<V>(decorators: Option<seq<(Name, V)>>, source: Name -> V, name: Name,
                            isNil: V -> bool, isTyped: V -> bool, load: V -> V)
    requires !(decorators.Some? && HasKey(decorators.value, name)) && isTyped(source(name))
    ensures Read(decorators, source, name, isNil, isTyped, load) == source(name)
  {
  }

  // ---------------------------------------------------------------------
  // Instance `validate`
  // ---------------------------------------------------------------------

  /** The `context` argument: nil, a String, or an array of segments. */
  datatype Ctx = CtxNil | CtxString(s: string) | CtxList(segments: seq<string>)

  datatype ValidateError = NilContext | Conflict   // ArgumentError; 'validation conflict'

  /** One attribute as `validate` sees its value: non-nil or not, and whether it is itself mid-validation. */
  datatype FieldValue = FieldValue(name: Name, present: bool, busy: bool)

  predicate PresentName(fields: seq<FieldValue>, k: Name) {
    exists i :: 0 <= i < |fields| && fields[i].present && fields[i].name == k
  }

  /** `keys_with_values`: the attributes whose value is not nil, in order. */
  function Present(fields: seq<FieldValue>): (r: seq<Name>)
    ensures forall k :: k in r <==> PresentName(fields, k)
  {
    if fields == [] then []
    else
      var rest := Present(fields[1..]);
      var r := if fields[0].present then [fields[0].name] + rest else rest;
      assert forall k :: k in r <==> PresentName(fields, k) by {
        forall k
          ensures k in r <==> PresentName(fields, k)
        {
          if PresentName(fields[1..], k) {
            var i :| 0 <= i < |fields[1..]| && fields[1..][i].present && fields[1..][i].name == k;
            assert fields[i + 1] == fields[1..][i];
          }
          if PresentName(fields, k) {
            var i :| 0 <= i < |fields| && fields[i].present && fields[i].name == k;
            if i > 0 {
              assert fields[1..][i - 1] == fields[i];
            }
          }
        }
      }
      r
  }

  /** The errors of each attribute not already validating, validated under `context + [name]`, in order. */
  function FieldErrors(fields: seq<FieldValue>, context: seq<string>, check: (Name, seq<string>) -> seq<string>)
    : seq<string>
  {
    if fields == [] then []
    else
      (if fields[0].busy then [] else check(fields[0].name, context + [fields[0].name]))
      + FieldErrors(fields[1..], context, check)
  }

  lemma {:induction false} FieldErrorsAppend(a: seq<FieldValue>, b: seq<FieldValue>, context: seq<string>,
                                            check: (Name, seq<string>) -> seq<string>)
    ensures FieldErrors(a + b, context, check) == FieldErrors(a, context, check) + FieldErrors(b, context, check)
  {
    if a == [] {
      assert a + b == b;
    } else {
      assert (a + b)[0] == a[0];
      assert (a + b)[1..] == a[1..] + b;
      FieldErrorsAppend(a[1..], b, context, check);
    }
  }

  /**
   An error is an attribute error exactly when it is among the errors of some
   attribute that was not already validating, checked under its own name.
   */
  lemma {:induction false} FieldErrorsFrom(fields: seq<FieldValue>, context: seq<string>,
                                           check: (Name, seq<string>) -> seq<string>, e: string)
    ensures e in FieldErrors(fields, context, check) <==>
      exists i :: 0 <= i < |fields| && !fields[i].busy && e in check(fields[i].name, context + [fields[i].name])
  {
    if fields != [] {
      FieldErrorsFrom(fields[1..], context, check, e);
      if exists i :: 0 <= i < |fields| && !fields[i].busy && e in check(fields[i].name, context + [fields[i].name]) {
        var i :| 0 <= i < |fields| && !fields[i].busy && e in check(fields[i].name, context + [fields[i].name]);
        if i > 0 {
          assert fields[1..][i - 1] == fields[i];
        }
      }
      if exists i :: 0 <= i < |fields[1..]| && !fields[1..][i].busy && e in check(fields[1..][i].name, context + [fields[1..][i].name]) {
        var i :| 0 <= i < |fields[1..]| && !fields[1..][i].busy && e in check(fields[1..][i].name, context + [fields[1..][i].name]);
        assert fields[i + 1] == fields[1..][i];
      }
    }
  }

  /** An attribute whose value is mid-validation contributes no errors. */
  lemma BusySkipped(a: seq<FieldValue>, f: FieldValue, b: seq<FieldValue>, context: seq<string>,
                    check: (Name, seq<string>) -> seq<string>)
    requires f.busy
    ensures FieldErrors(a + [f] + b, context, check) == FieldErrors(a + b, context, check)
  {
    FieldErrorsAppend(a + [f], b, context, check);
    FieldErrorsAppend(a, [f], context, check);
    FieldErrorsAppend(a, b, context, check);
    assert FieldErrors([f], context, check) == [] by {
      assert [f][1..] == [];
    }
  }

  /** The context as an array of segments: a String becomes a one-element array. */
  function Segments(context: Ctx): (r: seq<string>)
    requires !context.CtxNil?
    ensures context.CtxString? ==> r == [context.s]
    ensures context.CtxList? ==> r == context.segments
  {
    if context.CtxString? then [context.s] else context.segments
  }

  /**
   Instance `validate(context)`: a nil context is refused, a String context
   becomes a one-element array, a call while validating is refused; the
   result is the attribute errors followed by those of the requirements
   (`requirements` stands for `req.validate(keys_with_values, context)` over
   all of them). `@validating` is false after every call, refused or not.
   */
  function Validate(validating: bool, context: Ctx, fields: seq<FieldValue>,
                    check: (Name, seq<string>) -> seq<string>,
                    requirements: (seq<Name>, seq<string>) -> seq<string>)
    : (res: (bool, Result<seq<string>, ValidateError>))
    ensures !res.0
    ensures context.CtxNil? ==> res.1 == Err(NilContext)
    ensures !context.CtxNil? && validating ==> res.1 == Err(Conflict)
    ensures res.1.Ok? <==> !context.CtxNil? && !validating
    ensures res.1.Ok? ==>
      res.1.value == FieldErrors(fields, Segments(context), check) + requirements(Present(fields), Segments(context))
  {
    match context
    case CtxNil => (false, Err(NilContext))
    case CtxString(s) => ValidateUnder(validating, [s], fields, check, requirements)
    case CtxList(segs) => ValidateUnder(validating, segs, fields, check, requirements)
  }

  /** `validate` once the context is an array of segments. */
  function ValidateUnder(validating: bool, context: seq<string>, fields: seq<FieldValue>,
                         check: (Name, seq<string>) -> seq<string>,
                         requirements: (seq<Name>, seq<string>) -> seq<string>)
    : (res: (bool, Result<seq<string>, ValidateError>))
    ensures !res.0
    ensures validating ==> res.1 == Err(Conflict)
    ensures !validating ==> res.1.Ok? && |res.1.value| == |FieldErrors(fields, context, check)| + |requirements(Present(fields), context)|
    ensures !validating ==> res.1.value[..|FieldErrors(fields, context, check)|] == FieldErrors(fields, context, check)
    ensures !validating ==> res.1.value[|FieldErrors(fields, context, check)|..] == requirements(Present(fields), context)
  {
    if validating then (false, Err(Conflict))
    else (false, Ok(FieldErrors(fields, context, check) + requirements(Present(fields), context)))
  }

  /** A String context validates exactly as the one-segment array holding it. */
  lemma StringContext(validating: bool, s: string, fields: seq<FieldValue>,
                      check: (Name, seq<string>) -> seq<string>,
                      requirements: (seq<Name>, seq<string>) -> seq<string>)
    ensures Validate(validating, CtxString(s), fields, check, requirements)
         == Validate(validating, CtxList([s]), fields, check, requirements)
  {
  }

  /** After a validation, refused or not, the next one is not refused as a conflict. */
  lemma ValidateAgain(validating: bool, context: Ctx, fields: seq<FieldValue>,
                      check: (Name, seq<string>) -> seq<string>,
                      requirements: (seq<Name>, seq<string>) -> seq<string>)
    requires !context.CtxNil?
    ensures var first := Validate(validating, context, fields, check, requirements);
      Validate(first.0, context, fields, check, requirements).1.Ok?
  {
  }
}
