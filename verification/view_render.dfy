/**
 `View#render`, `View#example` and `CollectionView#example`: a view renders
 an object with its memoised expanded fields. The examples render with a new
 renderer; what the schema's `example` builds is a parameter.
 */
module ViewRender {
  import opened Common
  import opened Schema
  import opened Selection
  import opened Renderer
  import opened RenderReference
  import Views

  /** What rendering through a view can fail with: evaluating the view's contents, or rendering. */
  datatype Failure = ViewFailed(view: Views.ViewError) | RenderFailed(render: RenderError)

  /**
   `View#render(object, context:, renderer:)`: the view's `expanded_fields`,
   then `renderer.render(object, expanded_fields, context:)`.
   */
  function RenderView(reg: Views.Registry, v: ViewId, expand: (Views.Registry, ViewId) -> Views.Expansion,
                      w: World, s: Settings, cache: Cache, o: Value, ctx: Context, fuel: nat)
    : (res: (Views.Registry, Result<Out, Failure>, Cache))
    requires Views.Wf(reg) && v in reg.views
    ensures Views.Wf(res.0) && Views.Grows(reg, res.0) && res.0 == Views.ExpandedFields(reg, v, expand).0
    ensures (res.1.Err? && res.1.error.ViewFailed?) <==> Views.ExpandedFields(reg, v, expand).1.Err?
    ensures Views.ExpandedFields(reg, v, expand).1.Err? ==>
      res.1 == Err(ViewFailed(Views.ExpandedFields(reg, v, expand).1.error)) && res.2 == cache
  {
    var (r, e) := Views.ExpandedFields(reg, v, expand);
    match e
    case Err(err) => (r, Err(ViewFailed(err)), cache)
    case Ok(x) =>
      var (out, c) := Render(w, x.arena, s, cache, o, Some(x.root), ctx, fuel);
      (r, if out.Ok? then Ok(out.value) else Err(RenderFailed(out.error)), c)
  }

  /** With a new renderer, rendering through a view gives the uncached rendering with its expanded fields. */
  lemma RenderViewAgrees(reg: Views.Registry, v: ViewId, expand: (Views.Registry, ViewId) -> Views.Expansion,
                         w: World, s: Settings, o: Value, ctx: Context, fuel: nat)
    requires Views.Wf(reg) && v in reg.views
    ensures var e := Views.ExpandedFields(reg, v, expand).1;
      e.Ok? && RefRender(w, e.value.arena, s, o, Some(e.value.root), ctx, fuel).Ok? ==>
        RenderView(reg, v, expand, w, s, NewCache(), o, ctx, fuel).1
          == Ok(RefRender(w, e.value.arena, s, o, Some(e.value.root), ctx, fuel).value)
  {
    var e := Views.ExpandedFields(reg, v, expand).1;
    if e.Ok? && RefRender(w, e.value.arena, s, o, Some(e.value.root), ctx, fuel).Ok? {
      FreshRendererAgrees(w, e.value.arena, s, o, Some(e.value.root), ctx, fuel);
    }
  }

  /** `View#example(context)`: the schema's example under `context`, rendered through the view by a new renderer. */
  function ViewExample(reg: Views.Registry, v: ViewId, expand: (Views.Registry, ViewId) -> Views.Expansion,
                       w: World, s: Settings, ctx: Context, example: Context -> Value, fuel: nat)
    : (res: (Views.Registry, Result<Out, Failure>))
    requires Views.Wf(reg) && v in reg.views
    ensures Views.Wf(res.0) && res.0 == Views.ExpandedFields(reg, v, expand).0
  {
    var (r, out, _) := RenderView(reg, v, expand, w, s, NewCache(), example(ctx), ctx, fuel);
    (r, out)
  }

  /** The example renders as its object does under the view's expanded fields. */
  lemma ViewExampleRenders(reg: Views.Registry, v: ViewId, expand: (Views.Registry, ViewId) -> Views.Expansion,
                           w: World, s: Settings, ctx: Context, example: Context -> Value, fuel: nat)
    requires Views.Wf(reg) && v in reg.views
    ensures var e := Views.ExpandedFields(reg, v, expand).1;
      e.Ok? && RefRender(w, e.value.arena, s, example(ctx), Some(e.value.root), ctx, fuel).Ok? ==>
        ViewExample(reg, v, expand, w, s, ctx, example, fuel).1
          == Ok(RefRender(w, e.value.arena, s, example(ctx), Some(e.value.root), ctx, fuel).value)
  {
    RenderViewAgrees(reg, v, expand, w, s, example(ctx), ctx, fuel);
  }

  /** The new `Array` of `CollectionView#example`: no readers, not dumpable, the members as its elements. */
  function ArrayOf(members: seq<Value>): (r: ObjRec)
    ensures !r.blueprint && r.dump.None? && r.attrs == map[] && r.elements == Some(members)
  {
    ObjRec("Array", false, None, map[], Some(members))
  }

  /**
   `CollectionView#example(context)`: three member examples, the i-th under
   `context + ["at(i)"]`, collected into a new Array `cid` (an id the world
   does not use) and rendered through the view by a new renderer.
   */
  function CollectionViewExample(reg: Views.Registry, v: ViewId, expand: (Views.Registry, ViewId) -> Views.Expansion,
                                 w: World, s: Settings, cid: ObjId, ctx: Context, example: Context -> Value, fuel: nat)
    : (res: (Views.Registry, Result<Out, Failure>))
    requires Views.Wf(reg) && v in reg.views && cid !in w
    ensures Views.Wf(res.0) && res.0 == Views.ExpandedFields(reg, v, expand).0
  {
    var members := Views.ExampleMembers(ctx, example);
    var (r, out, _) := RenderView(reg, v, expand, w[cid := ArrayOf(members)], s, NewCache(), VObj(cid), ctx, fuel);
    (r, out)
  }

  /**
   Member example `i` rendered with the member fields `sub` under
   `context + ["at(i)"]`, one level below a collection rendered with `fuel`.
   */
  function MemberRendering(w: World, arena: Arena, s: Settings, sub: Option<Sel>, ctx: Context,
                           example: Context -> Value, fuel: nat, i: nat): Result<Out, RenderError>
    requires fuel > 0
  {
    RefRender(w, arena, s, example(ctx + [AtSegment(i)]), sub, ctx + [AtSegment(i)], fuel - 1)
  }

  /**
   The collected Array, rendered by a new renderer with an array selection,
   is a three-element list: element `i` is member example `i` rendered with
   the member fields under `context + ["at(i)"]`, whenever each member renders.
   */
  lemma CollectedArrayRenders(x: Views.Expansion, w: World, s: Settings, cid: ObjId, ctx: Context,
                              example: Context -> Value, fuel: nat)
    requires cid !in w && fuel > 0 && IsList(x.arena, Some(x.root))
    requires var w2 := w[cid := ArrayOf(Views.ExampleMembers(ctx, example))];
      forall i :: 0 <= i < 3 ==> MemberRendering(w2, x.arena, s, ListHead(x.arena, Some(x.root)), ctx, example, fuel, i).Ok?
    ensures var w2 := w[cid := ArrayOf(Views.ExampleMembers(ctx, example))];
      var res := Render(w2, x.arena, s, NewCache(), VObj(cid), Some(x.root), ctx, fuel).0;
      && res.Ok? && res.value.OList? && |res.value.items| == 3
      && forall i :: 0 <= i < 3 ==>
           MemberRendering(w2, x.arena, s, ListHead(x.arena, Some(x.root)), ctx, example, fuel, i) == Ok(res.value.items[i])
  {
    var members := Views.ExampleMembers(ctx, example);
    var w2 := w[cid := ArrayOf(members)];
    var sub := ListHead(x.arena, Some(x.root));
    forall i | 0 <= i < |members|
      ensures RefRender(w2, x.arena, s, members[i], sub, ctx + [AtSegment(0 + i)], fuel - 1).Ok?
    {
      assert MemberRendering(w2, x.arena, s, sub, ctx, example, fuel, i).Ok?;
    }
    RefEachOk(w2, x.arena, s, members, 0, sub, ctx, fuel - 1);
    assert Elements(w2, VObj(cid)) == Some(members);
    FreshRendererAgrees(w2, x.arena, s, VObj(cid), Some(x.root), ctx, fuel);
  }

  /**
   A CollectionView's example, when its expanded fields evaluate to an array
   selection (as a CollectionView's do), is the three-element list of its
   rendered member examples.
   */
  lemma CollectionViewExampleRenders(reg: Views.Registry, v: ViewId, expand: (Views.Registry, ViewId) -> Views.Expansion,
                                     w: World, s: Settings, cid: ObjId, ctx: Context, example: Context -> Value, fuel: nat)
    requires Views.Wf(reg) && v in reg.views && cid !in w && fuel > 0
    ensures var e := Views.ExpandedFields(reg, v, expand).1;
      var w2 := w[cid := ArrayOf(Views.ExampleMembers(ctx, example))];
      e.Ok? && IsList(e.value.arena, Some(e.value.root))
      && (forall i :: 0 <= i < 3 ==>
            MemberRendering(w2, e.value.arena, s, ListHead(e.value.arena, Some(e.value.root)), ctx, example, fuel, i).Ok?)
      ==>
        var res := CollectionViewExample(reg, v, expand, w, s, cid, ctx, example, fuel).1;
        && res.Ok? && res.value.OList? && |res.value.items| == 3
        && forall i :: 0 <= i < 3 ==>
             MemberRendering(w2, e.value.arena, s, ListHead(e.value.arena, Some(e.value.root)), ctx, example, fuel, i)
               == Ok(res.value.items[i])
  {
    var e := Views.ExpandedFields(reg, v, expand).1;
    var w2 := w[cid := ArrayOf(Views.ExampleMembers(ctx, example))];
    if e.Ok? && IsList(e.value.arena, Some(e.value.root))
       && (forall i :: 0 <= i < 3 ==>
             MemberRendering(w2, e.value.arena, s, ListHead(e.value.arena, Some(e.value.root)), ctx, example, fuel, i).Ok?) {
      CollectedArrayRenders(e.value, w, s, cid, ctx, example, fuel);
    }
  }
}
