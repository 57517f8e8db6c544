/**
 The renderer without its cache: every request rendered afresh. It is the
 reference the cached renderer is proved against, and the place where the
 per-call properties of rendering are stated without cache state in the way.
 */
module RenderReference {
  import opened Common
  import opened Selection
  import opened Renderer

  function RefRender(w: World, arena: Arena, s: Settings, o: Value, f: Option<Sel>, ctx: Context, fuel: nat)
    : (r: Result<Out, RenderError>)
    ensures fuel == 0 ==> r == Err(CircularRenderingError(o, ctx))
    ensures fuel > 0 && IsList(arena, f) && Elements(w, o).None? ==> r == Err(NotEnumerable(o, ctx))
    ensures r.Ok? && IsList(arena, f) ==>
      (r.value.OList? && Elements(w, o).Some? && |r.value.items| == |Elements(w, o).value|)
    decreases fuel, 0, 0
  {
    if fuel == 0 then Err(CircularRenderingError(o, ctx))
    else if IsList(arena, f) then
      match Elements(w, o)
      case None => Err(NotEnumerable(o, ctx))
      case Some(items) =>
        var r := RefEach(w, arena, s, items, 0, ListHead(arena, f), ctx, fuel - 1);
        if r.Err? then Err(r.error) else Ok(OList(r.value))
    else RefBody(w, arena, s, o, f, ctx, fuel - 1)
  }

  /** Element `i` of a collection is rendered with the inner mask under `ctx + ["at(i)"]`, in order. */
  function RefEach(w: World, arena: Arena, s: Settings, items: seq<Value>, start: nat, sub: Option<Sel>,
                   ctx: Context, fuel: nat)
    : (r: Result<seq<Out>, RenderError>)
    ensures r.Ok? ==> |r.value| == |items|
    ensures r.Ok? ==> forall i :: 0 <= i < |items| ==>
      RefRender(w, arena, s, items[i], sub, ctx + [AtSegment(start + i)], fuel) == Ok(r.value[i])
    decreases fuel, 1, |items|
  {
    if items == [] then Ok([])
    else
      var r := RefRender(w, arena, s, items[0], sub, ctx + [AtSegment(start)], fuel);
      if r.Err? then Err(r.error)
      else
        var rs := RefEach(w, arena, s, items[1..], start + 1, sub, ctx, fuel);
        if rs.Err? then rs
        else
          var out := [r.value] + rs.value;
          assert forall i :: 0 <= i < |items| ==>
            RefRender(w, arena, s, items[i], sub, ctx + [AtSegment(start + i)], fuel) == Ok(out[i]) by {
            forall i | 0 <= i < |items|
              ensures RefRender(w, arena, s, items[i], sub, ctx + [AtSegment(start + i)], fuel) == Ok(out[i])
            {
              if i > 0 {
                assert items[i] == items[1..][i - 1] && out[i] == rs.value[i - 1];
                assert start + i == (start + 1) + (i - 1);
              }
            }
          }
          Ok(out)
  }

  function RefBody(w: World, arena: Arena, s: Settings, o: Value, f: Option<Sel>, ctx: Context, fuel: nat)
    : (r: Result<Out, RenderError>)
    ensures f == Some(SelTrue) ==> r == Ok(DumpOrSelf(w, o))
    ensures r.Ok? && f != Some(SelTrue) ==> MapEntries(arena, f).Some? && r.value.OMap?
    ensures r.Ok? && f != Some(SelTrue) ==>
      Names(r.value.entries) == PresentKeys(w, o, MapEntries(arena, f).value, s.includeNil)
    decreases fuel, 2, 0
  {
    if f == Some(SelTrue) then Ok(DumpOrSelf(w, o))
    else match MapEntries(arena, f)
      case None => Err(NotAMask(ctx))
      case Some(es) =>
        var r := RefFields(w, arena, s, o, es, ctx, fuel);
        if r.Err? then Err(r.error) else Ok(OMap(r.value))
  }

  /**
   The output keys are the mask keys whose value is present, in mask order;
   a `nil` value is kept, as `nil`, only under `include_nil`; a `true`
   sub-mask dumps or passes the value; any failing read fails the whole hash.
   */
  function RefFields(w: World, arena: Arena, s: Settings, o: Value, es: seq<(Name, Sel)>, ctx: Context, fuel: nat)
    : (r: Result<seq<(Name, Out)>, RenderError>)
    ensures r.Ok? ==> Names(r.value) == PresentKeys(w, o, es, s.includeNil)
    ensures es != [] && GetAttr(w, o, es[0].0).Err? ==>
      r == Err(DumpError(ctx, es[0].0, ClassOf(w, o), GetAttr(w, o, es[0].0).error))
    ensures (exists i :: 0 <= i < |es| && GetAttr(w, o, es[i].0).Err?) ==> r.Err?
    ensures r.Ok? && es != [] && GetAttr(w, o, es[0].0) == Ok(VNil) && s.includeNil ==> r.value[0] == (es[0].0, ONil)
    ensures r.Ok? && es != [] && GetAttr(w, o, es[0].0).Ok? && GetAttr(w, o, es[0].0) != Ok(VNil) && es[0].1 == SelTrue
            ==> r.value[0] == (es[0].0, DumpOrSelf(w, GetAttr(w, o, es[0].0).value))
    ensures r.Ok? && es != [] && GetAttr(w, o, es[0].0).Ok? && GetAttr(w, o, es[0].0) != Ok(VNil) && es[0].1 != SelTrue
            ==> RefRender(w, arena, s, GetAttr(w, o, es[0].0).value, Some(es[0].1), ctx + [es[0].0], fuel) == Ok(r.value[0].1)
    decreases fuel, 1, |es|
  {
    if es == [] then Ok([])
    else
      var (key, sub) := es[0];
      match GetAttr(w, o, key)
      case Err(e) => Err(DumpError(ctx, key, ClassOf(w, o), e))
      case Ok(v) =>
        if v == VNil then
          var rs := RefFields(w, arena, s, o, es[1..], ctx, fuel);
          if rs.Err? then rs
          else if s.includeNil then Ok([(key, ONil)] + rs.value)
          else rs
        else if sub == SelTrue then
          var rs := RefFields(w, arena, s, o, es[1..], ctx, fuel);
          if rs.Err? then rs else Ok([(key, DumpOrSelf(w, v))] + rs.value)
        else
          var r := RefRender(w, arena, s, v, Some(sub), ctx + [key], fuel);
          if r.Err? then Err(r.error)
          else
            var rs := RefFields(w, arena, s, o, es[1..], ctx, fuel);
            if rs.Err? then rs else Ok([(key, r.value)] + rs.value)
  }

  /** The first unreadable key decides the failure once the keys before it have rendered. */
  lemma {:induction false} RefFieldsFailAtFirstUnreadable(w: World, arena: Arena, s: Settings, o: Value,
                                                          es: seq<(Name, Sel)>, ctx: Context, fuel: nat, i: nat)
    requires i < |es| && GetAttr(w, o, es[i].0).Err?
    requires RefFields(w, arena, s, o, es[..i], ctx, fuel).Ok?
    ensures RefFields(w, arena, s, o, es, ctx, fuel) == Err(DumpError(ctx, es[i].0, ClassOf(w, o), GetAttr(w, o, es[i].0).error))
    decreases i
  {
    if i > 0 {
      assert es[..i][0] == es[0] && es[..i][1..] == es[1..][..i - 1] && es[1..][i - 1] == es[i];
      assert GetAttr(w, o, es[0].0).Ok?;
      RefFieldsFailAtFirstUnreadable(w, arena, s, o, es[1..], ctx, fuel, i - 1);
    }
  }

  /** A collection renders exactly when each of its elements renders under its own `at(i)` context. */
  lemma {:induction false} RefEachOk(w: World, arena: Arena, s: Settings, items: seq<Value>, start: nat, sub: Option<Sel>,
                                     ctx: Context, fuel: nat)
    ensures RefEach(w, arena, s, items, start, sub, ctx, fuel).Ok? <==>
      forall i :: 0 <= i < |items| ==> RefRender(w, arena, s, items[i], sub, ctx + [AtSegment(start + i)], fuel).Ok?
    decreases |items|
  {
    if items != [] {
      RefEachOk(w, arena, s, items[1..], start + 1, sub, ctx, fuel);
      forall i | 0 <= i < |items[1..]|
        ensures items[1..][i] == items[i + 1] && (start + 1) + i == start + (i + 1)
      {
      }
    }
  }

  // ---------------------------------------------------------------------
  // A successful rendering does not depend on the budget or the context
  // ---------------------------------------------------------------------

  lemma {:induction false} RefRenderFuel(w: World, arena: Arena, s: Settings, o: Value, f: Option<Sel>, ctx: Context, n: nat, m: nat)
    requires n <= m && RefRender(w, arena, s, o, f, ctx, n).Ok?
    ensures RefRender(w, arena, s, o, f, ctx, m) == RefRender(w, arena, s, o, f, ctx, n)
    decreases n, 0, 0
  {
    if IsList(arena, f) {
      RefEachFuel(w, arena, s, Elements(w, o).value, 0, ListHead(arena, f), ctx, n - 1, m - 1);
    } else {
      RefBodyFuel(w, arena, s, o, f, ctx, n - 1, m - 1);
    }
  }

  lemma {:induction false} RefEachFuel(w: World, arena: Arena, s: Settings, items: seq<Value>, start: nat, sub: Option<Sel>,
                                       ctx: Context, n: nat, m: nat)
    requires n <= m && RefEach(w, arena, s, items, start, sub, ctx, n).Ok?
    ensures RefEach(w, arena, s, items, start, sub, ctx, m) == RefEach(w, arena, s, items, start, sub, ctx, n)
    decreases n, 1, |items|
  {
    if items != [] {
      RefRenderFuel(w, arena, s, items[0], sub, ctx + [AtSegment(start)], n, m);
      RefEachFuel(w, arena, s, items[1..], start + 1, sub, ctx, n, m);
    }
  }

  lemma {:induction false} RefBodyFuel(w: World, arena: Arena, s: Settings, o: Value, f: Option<Sel>, ctx: Context, n: nat, m: nat)
    requires n <= m && RefBody(w, arena, s, o, f, ctx, n).Ok?
    ensures RefBody(w, arena, s, o, f, ctx, m) == RefBody(w, arena, s, o, f, ctx, n)
    decreases n, 2, 0
  {
    if f != Some(SelTrue) {
      RefFieldsFuel(w, arena, s, o, MapEntries(arena, f).value, ctx, n, m);
    }
  }

  lemma {:induction false} RefFieldsFuel(w: World, arena: Arena, s: Settings, o: Value, es: seq<(Name, Sel)>, ctx: Context, n: nat, m: nat)
    requires n <= m && RefFields(w, arena, s, o, es, ctx, n).Ok?
    ensures RefFields(w, arena, s, o, es, ctx, m) == RefFields(w, arena, s, o, es, ctx, n)
    decreases n, 1, |es|
  {
    if es != [] {
      var v := GetAttr(w, o, es[0].0).value;
      if v != VNil && es[0].1 != SelTrue {
        RefRenderFuel(w, arena, s, v, Some(es[0].1), ctx + [es[0].0], n, m);
      }
      RefFieldsFuel(w, arena, s, o, es[1..], ctx, n, m);
    }
  }

  lemma {:induction false} RefRenderContext(w: World, arena: Arena, s: Settings, o: Value, f: Option<Sel>, c1: Context, c2: Context, n: nat)
    requires RefRender(w, arena, s, o, f, c1, n).Ok?
    ensures RefRender(w, arena, s, o, f, c2, n) == RefRender(w, arena, s, o, f, c1, n)
    decreases n, 0, 0
  {
    if IsList(arena, f) {
      RefEachContext(w, arena, s, Elements(w, o).value, 0, 0, ListHead(arena, f), c1, c2, n - 1);
    } else {
      RefBodyContext(w, arena, s, o, f, c1, c2, n - 1);
    }
  }

  lemma {:induction false} RefEachContext(w: World, arena: Arena, s: Settings, items: seq<Value>, i1: nat, i2: nat,
                                          sub: Option<Sel>, c1: Context, c2: Context, n: nat)
    requires RefEach(w, arena, s, items, i1, sub, c1, n).Ok?
    ensures RefEach(w, arena, s, items, i2, sub, c2, n) == RefEach(w, arena, s, items, i1, sub, c1, n)
    decreases n, 1, |items|
  {
    if items != [] {
      RefRenderContext(w, arena, s, items[0], sub, c1 + [AtSegment(i1)], c2 + [AtSegment(i2)], n);
      RefEachContext(w, arena, s, items[1..], i1 + 1, i2 + 1, sub, c1, c2, n);
    }
  }

  lemma {:induction false} RefBodyContext(w: World, arena: Arena, s: Settings, o: Value, f: Option<Sel>, c1: Context, c2: Context, n: nat)
    requires RefBody(w, arena, s, o, f, c1, n).Ok?
    ensures RefBody(w, arena, s, o, f, c2, n) == RefBody(w, arena, s, o, f, c1, n)
    decreases n, 2, 0
  {
    if f != Some(SelTrue) {
      RefFieldsContext(w, arena, s, o, MapEntries(arena, f).value, c1, c2, n);
    }
  }

  lemma {:induction false} RefFieldsContext(w: World, arena: Arena, s: Settings, o: Value, es: seq<(Name, Sel)>,
                                            c1: Context, c2: Context, n: nat)
    requires RefFields(w, arena, s, o, es, c1, n).Ok?
    ensures RefFields(w, arena, s, o, es, c2, n) == RefFields(w, arena, s, o, es, c1, n)
    decreases n, 1, |es|
  {
    if es != [] {
      var v := GetAttr(w, o, es[0].0).value;
      if v != VNil && es[0].1 != SelTrue {
        RefRenderContext(w, arena, s, v, Some(es[0].1), c1 + [es[0].0], c2 + [es[0].0], n);
      }
      RefFieldsContext(w, arena, s, o, es[1..], c1, c2, n);
    }
  }

  /** Two successful renderings of one object under one selection agree, whatever their budgets and contexts. */
  lemma RefRenderDeterministic(w: World, arena: Arena, s: Settings, o: Value, f: Option<Sel>,
                               c1: Context, n1: nat, c2: Context, n2: nat)
    requires RefRender(w, arena, s, o, f, c1, n1).Ok? && RefRender(w, arena, s, o, f, c2, n2).Ok?
    ensures RefRender(w, arena, s, o, f, c1, n1) == RefRender(w, arena, s, o, f, c2, n2)
  {
    RefRenderContext(w, arena, s, o, f, c1, c2, n1);
    if n1 <= n2 {
      RefRenderFuel(w, arena, s, o, f, c2, n1, n2);
    } else {
      RefRenderFuel(w, arena, s, o, f, c2, n2, n1);
    }
  }

  // ---------------------------------------------------------------------
  // The cache changes nothing that succeeds
  // ---------------------------------------------------------------------

  /** Every cached result is what rendering its object under its selection gives. */
  ghost predicate CacheSound(w: World, arena: Arena, s: Settings, cache: Cache) {
    forall k :: k in cache ==>
      exists n: nat, c: Context :: RefRender(w, arena, s, VObj(k.0), Some(k.1), c, n) == Ok(cache[k])
  }

  lemma EmptyCacheSound(w: World, arena: Arena, s: Settings)
    ensures CacheSound(w, arena, s, NewCache())
  {
  }

  /**
   From a sound cache, the cached renderer gives whatever the uncached one
   gives when that succeeds, and leaves the cache sound.
   */
  lemma {:induction false} CachedRenderAgrees(w: World, arena: Arena, s: Settings, cache: Cache, o: Value, f: Option<Sel>,
                                              ctx: Context, fuel: nat)
    requires CacheSound(w, arena, s, cache) && RefRender(w, arena, s, o, f, ctx, fuel).Ok?
    ensures Render(w, arena, s, cache, o, f, ctx, fuel).0 == RefRender(w, arena, s, o, f, ctx, fuel)
    ensures CacheSound(w, arena, s, Render(w, arena, s, cache, o, f, ctx, fuel).1)
    decreases fuel, 0, 0
  {
    if IsList(arena, f) {
      EachAgrees(w, arena, s, cache, Elements(w, o).value, 0, ListHead(arena, f), ctx, fuel - 1);
    } else if IsBlueprint(w, o) && f.Some? {
      var k := (o.id, f.value);
      if k in cache && cache[k] != ONil {
        var n: nat, c: Context :| RefRender(w, arena, s, VObj(k.0), Some(k.1), c, n) == Ok(cache[k]);
        RefRenderDeterministic(w, arena, s, o, f, c, n, ctx, fuel);
      } else {
        BodyAgrees(w, arena, s, cache, o, f, ctx, fuel - 1);
        var (r, c) := RenderBody(w, arena, s, cache, o, f, ctx, fuel - 1);
        assert RefRender(w, arena, s, VObj(k.0), Some(k.1), ctx, fuel) == Ok(r.value);
        forall k' | k' in c[k := r.value]
          ensures exists n: nat, c': Context :: RefRender(w, arena, s, VObj(k'.0), Some(k'.1), c', n) == Ok(c[k := r.value][k'])
        {
          if k' == k {
            assert RefRender(w, arena, s, VObj(k'.0), Some(k'.1), ctx, fuel) == Ok(c[k := r.value][k']);
          }
        }
      }
    } else {
      BodyAgrees(w, arena, s, cache, o, f, ctx, fuel - 1);
    }
  }

  lemma {:induction false} EachAgrees(w: World, arena: Arena, s: Settings, cache: Cache, items: seq<Value>, start: nat,
                                      sub: Option<Sel>, ctx: Context, fuel: nat)
    requires CacheSound(w, arena, s, cache) && RefEach(w, arena, s, items, start, sub, ctx, fuel).Ok?
    ensures RenderEach(w, arena, s, cache, items, start, sub, ctx, fuel).0 == RefEach(w, arena, s, items, start, sub, ctx, fuel)
    ensures CacheSound(w, arena, s, RenderEach(w, arena, s, cache, items, start, sub, ctx, fuel).1)
    decreases fuel, 1, |items|
  {
    if items != [] {
      CachedRenderAgrees(w, arena, s, cache, items[0], sub, ctx + [AtSegment(start)], fuel);
      var (_, c1) := Render(w, arena, s, cache, items[0], sub, ctx + [AtSegment(start)], fuel);
      EachAgrees(w, arena, s, c1, items[1..], start + 1, sub, ctx, fuel);
    }
  }

  lemma {:induction false} BodyAgrees(w: World, arena: Arena, s: Settings, cache: Cache, o: Value, f: Option<Sel>,
                                      ctx: Context, fuel: nat)
    requires CacheSound(w, arena, s, cache) && RefBody(w, arena, s, o, f, ctx, fuel).Ok?
    ensures RenderBody(w, arena, s, cache, o, f, ctx, fuel).0 == RefBody(w, arena, s, o, f, ctx, fuel)
    ensures CacheSound(w, arena, s, RenderBody(w, arena, s, cache, o, f, ctx, fuel).1)
    decreases fuel, 2, 0
  {
    if f != Some(SelTrue) {
      FieldsAgrees(w, arena, s, cache, o, MapEntries(arena, f).value, ctx, fuel);
    }
  }

  lemma {:induction false} FieldsAgrees(w: World, arena: Arena, s: Settings, cache: Cache, o: Value, es: seq<(Name, Sel)>,
                                        ctx: Context, fuel: nat)
    requires CacheSound(w, arena, s, cache) && RefFields(w, arena, s, o, es, ctx, fuel).Ok?
    ensures RenderFields(w, arena, s, cache, o, es, ctx, fuel).0 == RefFields(w, arena, s, o, es, ctx, fuel)
    ensures CacheSound(w, arena, s, RenderFields(w, arena, s, cache, o, es, ctx, fuel).1)
    decreases fuel, 1, |es|
  {
    if es != [] {
      var (key, sub) := es[0];
      var v := GetAttr(w, o, key).value;
      if v == VNil || sub == SelTrue {
        FieldsAgrees(w, arena, s, cache, o, es[1..], ctx, fuel);
      } else {
        CachedRenderAgrees(w, arena, s, cache, v, Some(sub), ctx + [key], fuel);
        var (_, c1) := Render(w, arena, s, cache, v, Some(sub), ctx + [key], fuel);
        FieldsAgrees(w, arena, s, c1, o, es[1..], ctx, fuel);
      }
    }
  }

  /** A renderer with a new cache renders as the uncached one wherever that succeeds. */
  lemma FreshRendererAgrees(w: World, arena: Arena, s: Settings, o: Value, f: Option<Sel>, ctx: Context, fuel: nat)
    requires RefRender(w, arena, s, o, f, ctx, fuel).Ok?
    ensures Render(w, arena, s, NewCache(), o, f, ctx, fuel).0 == RefRender(w, arena, s, o, f, ctx, fuel)
  {
    EmptyCacheSound(w, arena, s);
    CachedRenderAgrees(w, arena, s, NewCache(), o, f, ctx, fuel);
  }

  /**
   `render_collection(collection, member_fields)`: element `i` of the
   collection is rendered with `member_fields` under `ctx + ["at(i)"]`, and
   the output lists the results in the collection's order.
   */
  lemma RefCollectionElements(w: World, arena: Arena, spare: Handle, s: Settings, c: Value, m: Sel, ctx: Context, fuel: nat)
    requires spare !in arena
    requires RefRender(w, arena[spare := ListNode([m])], s, c, Some(SelRef(spare)), ctx, fuel).Ok?
    ensures var out := RefRender(w, arena[spare := ListNode([m])], s, c, Some(SelRef(spare)), ctx, fuel).value;
      && fuel > 0 && Elements(w, c).Some? && out.OList? && |out.items| == |Elements(w, c).value|
      && forall i :: 0 <= i < |out.items| ==>
           RefRender(w, arena[spare := ListNode([m])], s, Elements(w, c).value[i], Some(m),
                     ctx + [AtSegment(i)], fuel - 1) == Ok(out.items[i])
  {
    var a2 := arena[spare := ListNode([m])];
    assert IsList(a2, Some(SelRef(spare))) && ListHead(a2, Some(SelRef(spare))) == Some(m);
    var items := Elements(w, c).value;
    var r := RefEach(w, a2, s, items, 0, Some(m), ctx, fuel - 1);
  }

  /** The cached `render_collection` of a new renderer gives the same list. */
  lemma CollectionAgrees(w: World, arena: Arena, spare: Handle, s: Settings, c: Value, m: Sel, ctx: Context, fuel: nat)
    requires spare !in arena
    requires RefRender(w, arena[spare := ListNode([m])], s, c, Some(SelRef(spare)), ctx, fuel).Ok?
    ensures RenderCollection(w, arena, spare, s, NewCache(), c, m, ctx, fuel).0
         == RefRender(w, arena[spare := ListNode([m])], s, c, Some(SelRef(spare)), ctx, fuel)
  {
    FreshRendererAgrees(w, arena[spare := ListNode([m])], s, c, Some(SelRef(spare)), ctx, fuel);
  }
}
