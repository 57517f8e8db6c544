/**
 `Praxis::Renderer`: an object graph rendered to plain data under a
 selection tree from the field expander. A list selection maps over a
 collection, `true` dumps or passes a value through, and a hash selection
 reads each named attribute. Results for Blueprint objects are cached per
 (object, selection). The process call stack is bounded here by `fuel`;
 running out of it is `CircularRenderingError`.
 */
module Renderer {
  import opened Common
  import opened Selection

  type ObjId = nat

  /** A Ruby value as the renderer sees it: `nil`, a plain value, or an object with identity. */
  datatype Value = VNil | VScalar(cls: Name, text: string) | VObj(id: ObjId)

  /** Rendered output: `nil`, a value passed through, a hash, or an array. */
  datatype Out = ONil | OValue(v: Value) | OMap(entries: seq<(Name, Out)>) | OList(items: seq<Out>)

  /**
   What the renderer can ask an object: its class, whether it is a
   Blueprint, its `dump` when it is `Attributor::Dumpable`, what `_get_attr`
   answers per name (a value or a raised error), and its elements when it
   responds to `each_with_index`.
   */
  datatype ObjRec = ObjRec(
    cls: Name,
    blueprint: bool,
    dump: Option<Out>,
    attrs: map<Name, Result<Value, string>>,
    elements: Option<seq<Value>>)

  type World = map<ObjId, ObjRec>
  type Context = seq<string>
  type Cache = map<(ObjId, Sel), Out>

  datatype RenderError =
    | DumpError(context: Context, name: Name, cls: Name, cause: string)
    | CircularRenderingError(obj: Value, context: Context)
    | NotEnumerable(obj: Value, context: Context)   // `each_with_index` on a non-collection
    | NotAMask(context: Context)                       // `each_with_object` on nil fields

  /** The settings a renderer is built with: `include_nil`, default `false`. */
  datatype Settings = Settings(includeNil: bool)

  function NewSettings(includeNil: bool := false): (s: Settings)
    ensures s.includeNil == includeNil
  {
    Settings(includeNil)
  }

  /** A new renderer's cache holds nothing. */
  function NewCache(): (c: Cache)
    ensures forall k :: k !in c
  {
    map[]
  }

  // ---------------------------------------------------------------------
  // What the renderer asks of values
  // ---------------------------------------------------------------------

  function ClassOf(w: World, v: Value): Name {
    match v
    case VNil => "NilClass"
    case VScalar(cls, _) => cls
    case VObj(id) => if id in w then w[id].cls else "Object"
  }

  /** `object._get_attr(key)`: the object's answer, or `NoMethodError` for anything that has no such reader. */
  function GetAttr(w: World, v: Value, key: Name): (r: Result<Value, string>)
    ensures (v.VObj? && v.id in w && key in w[v.id].attrs) ==> r == w[v.id].attrs[key]
    ensures !(v.VObj? && v.id in w && key in w[v.id].attrs) ==> r.Err?
  {
    if v.VObj? && v.id in w && key in w[v.id].attrs then w[v.id].attrs[key] else Err("NoMethodError")
  }

  /** `case value when Attributor::Dumpable then value.dump else value`. */
  function DumpOrSelf(w: World, v: Value): (r: Out)
    ensures (v.VObj? && v.id in w && w[v.id].dump.Some?) ==> r == w[v.id].dump.value
    ensures !(v.VObj? && v.id in w && w[v.id].dump.Some?) ==> r == OValue(v)
  {
    if v.VObj? && v.id in w && w[v.id].dump.Some? then w[v.id].dump.value else OValue(v)
  }

  function Elements(w: World, v: Value): Option<seq<Value>> {
    if v.VObj? && v.id in w then w[v.id].elements else None
  }

  predicate IsBlueprint(w: World, v: Value) {
    v.VObj? && v.id in w && w[v.id].blueprint
  }

  /** `fields.is_a? Array`. */
  predicate IsList(arena: Arena, f: Option<Sel>) {
    f.Some? && f.value.SelRef? && f.value.h in arena && arena[f.value.h].ListNode?
  }

  /** `fields[0]`: `nil` for an empty array. */
  function ListHead(arena: Arena, f: Option<Sel>): Option<Sel>
    requires IsList(arena, f)
  {
    var items := arena[f.value.h].items;
    if items == [] then None else Some(items[0])
  }

  /** The hash a selection names, if it names one. */
  function MapEntries(arena: Arena, f: Option<Sel>): Option<seq<(Name, Sel)>> {
    if f.Some? && f.value.SelRef? && f.value.h in arena && arena[f.value.h].MapNode?
    then Some(arena[f.value.h].entries) else None
  }

  /** The mask keys whose attribute is present in the output: non-nil ones, or all of them under `include_nil`. */
  function PresentKeys(w: World, o: Value, es: seq<(Name, Sel)>, includeNil: bool): seq<Name> {
    if es == [] then []
    else if includeNil || GetAttr(w, o, es[0].0) != Ok(VNil) then [es[0].0] + PresentKeys(w, o, es[1..], includeNil)
    else PresentKeys(w, o, es[1..], includeNil)
  }

  // ---------------------------------------------------------------------
  // The renderer, with its cache
  // ---------------------------------------------------------------------

  /** `render(object, fields, context:)`. */
  function Render(w: World, arena: Arena, s: Settings, cache: Cache, o: Value, f: Option<Sel>, ctx: Context, fuel: nat)
    : (res: (Result<Out, RenderError>, Cache))
    ensures fuel == 0 ==> res == (Err(CircularRenderingError(o, ctx)), cache)
    ensures fuel > 0 && !IsList(arena, f) && IsBlueprint(w, o) && f.Some?
            && (o.id, f.value) in cache && cache[(o.id, f.value)] != ONil
            ==> res == (Ok(cache[(o.id, f.value)]), cache)
    ensures res.0.Ok? && fuel > 0 && !IsList(arena, f) && IsBlueprint(w, o) && f.Some? ==>
      (o.id, f.value) in res.1 && res.1[(o.id, f.value)] == res.0.value
    decreases fuel, 0, 0
  {
    if fuel == 0 then (Err(CircularRenderingError(o, ctx)), cache)
    else if IsList(arena, f) then
      match Elements(w, o)
      case None => (Err(NotEnumerable(o, ctx)), cache)
      case Some(items) =>
        var (r, c) := RenderEach(w, arena, s, cache, items, 0, ListHead(arena, f), ctx, fuel - 1);
        if r.Err? then (Err(r.error), c) else (Ok(OList(r.value)), c)
    else if IsBlueprint(w, o) && f.Some? then
      var k := (o.id, f.value);
      if k in cache && cache[k] != ONil then (Ok(cache[k]), cache)
      else
        var (r, c) := RenderBody(w, arena, s, cache, o, f, ctx, fuel - 1);
        if r.Err? then (r, c) else (r, c[k := r.value])
    else RenderBody(w, arena, s, cache, o, f, ctx, fuel - 1)
  }

  /** `object.each_with_index.collect`: element `i` under context `ctx + ["at(i)"]`. */
  function RenderEach(w: World, arena: Arena, s: Settings, cache: Cache, items: seq<Value>, start: nat,
                      sub: Option<Sel>, ctx: Context, fuel: nat)
    : (res: (Result<seq<Out>, RenderError>, Cache))
    ensures res.0.Ok? ==> |res.0.value| == |items|
    decreases fuel, 1, |items|
  {
    if items == [] then (Ok([]), cache)
    else
      var (r, c1) := Render(w, arena, s, cache, items[0], sub, ctx + [AtSegment(start)], fuel);
      if r.Err? then (Err(r.error), c1)
      else
        var (rs, c2) := RenderEach(w, arena, s, c1, items[1..], start + 1, sub, ctx, fuel);
        if rs.Err? then (rs, c2) else (Ok([r.value] + rs.value), c2)
  }

  /** `_render`: `true` dumps or passes through; a hash reads each key in order. */
  function RenderBody(w: World, arena: Arena, s: Settings, cache: Cache, o: Value, f: Option<Sel>, ctx: Context, fuel: nat)
    : (res: (Result<Out, RenderError>, Cache))
    ensures f == Some(SelTrue) ==> res == (Ok(DumpOrSelf(w, o)), cache)
    ensures f != Some(SelTrue) && MapEntries(arena, f).None? ==> res == (Err(NotAMask(ctx)), cache)
    decreases fuel, 2, 0
  {
    if f == Some(SelTrue) then (Ok(DumpOrSelf(w, o)), cache)
    else match MapEntries(arena, f)
      case None => (Err(NotAMask(ctx)), cache)
      case Some(es) =>
        var (r, c) := RenderFields(w, arena, s, cache, o, es, ctx, fuel);
        if r.Err? then (Err(r.error), c) else (Ok(OMap(r.value)), c)
  }

  /** The loop of `_render` over the selection's keys. */
  function RenderFields(w: World, arena: Arena, s: Settings, cache: Cache, o: Value, es: seq<(Name, Sel)>,
                        ctx: Context, fuel: nat)
    : (res: (Result<seq<(Name, Out)>, RenderError>, Cache))
    ensures es != [] && GetAttr(w, o, es[0].0).Err? ==>
      res == (Err(DumpError(ctx, es[0].0, ClassOf(w, o), GetAttr(w, o, es[0].0).error)), cache)
    ensures (exists i :: 0 <= i < |es| && GetAttr(w, o, es[i].0).Err?) ==> res.0.Err?
    decreases fuel, 1, |es|
  {
    if es == [] then (Ok([]), cache)
    else
      var (key, sub) := es[0];
      match GetAttr(w, o, key)
      case Err(e) => (Err(DumpError(ctx, key, ClassOf(w, o), e)), cache)
      case Ok(v) =>
        if v == VNil then
          var (rs, c) := RenderFields(w, arena, s, cache, o, es[1..], ctx, fuel);
          if rs.Err? then (rs, c)
          else if s.includeNil then (Ok([(key, ONil)] + rs.value), c)
          else (rs, c)
        else if sub == SelTrue then
          var (rs, c) := RenderFields(w, arena, s, cache, o, es[1..], ctx, fuel);
          if rs.Err? then (rs, c) else (Ok([(key, DumpOrSelf(w, v))] + rs.value), c)
        else
          var (r, c1) := Render(w, arena, s, cache, v, Some(sub), ctx + [key], fuel);
          if r.Err? then (Err(r.error), c1)
          else
            var (rs, c2) := RenderFields(w, arena, s, c1, o, es[1..], ctx, fuel);
            if rs.Err? then (rs, c2) else (Ok([(key, r.value)] + rs.value), c2)
  }

  /**
   The first unreadable key decides the failure: once the keys before it
   have rendered, the hash fails with the `DumpError` of that key, and the
   cache is as those earlier keys left it.
   */
  lemma {:induction false} FieldsFailAtFirstUnreadable(w: World, arena: Arena, s: Settings, cache: Cache, o: Value,
                                                       es: seq<(Name, Sel)>, ctx: Context, fuel: nat, i: nat)
    requires i < |es| && GetAttr(w, o, es[i].0).Err?
    requires RenderFields(w, arena, s, cache, o, es[..i], ctx, fuel).0.Ok?
    ensures RenderFields(w, arena, s, cache, o, es, ctx, fuel)
         == (Err(DumpError(ctx, es[i].0, ClassOf(w, o), GetAttr(w, o, es[i].0).error)),
             RenderFields(w, arena, s, cache, o, es[..i], ctx, fuel).1)
    decreases i
  {
    if i > 0 {
      var (key, sub) := es[0];
      assert es[..i][0] == es[0] && es[..i][1..] == es[1..][..i - 1] && es[1..][i - 1] == es[i];
      assert GetAttr(w, o, key).Ok?;
      var v := GetAttr(w, o, key).value;
      if v == VNil || sub == SelTrue {
        FieldsFailAtFirstUnreadable(w, arena, s, cache, o, es[1..], ctx, fuel, i - 1);
      } else {
        var (_, c1) := Render(w, arena, s, cache, v, Some(sub), ctx + [key], fuel);
        FieldsFailAtFirstUnreadable(w, arena, s, c1, o, es[1..], ctx, fuel, i - 1);
      }
    }
  }

  /**
   `render_collection(collection, member_fields)`: `render(collection, [member_fields])`,
   where `[member_fields]` is a new array, stored under a spare handle no node uses.
   */
  function RenderCollection(w: World, arena: Arena, spare: Handle, s: Settings, cache: Cache, c: Value,
                            memberFields: Sel, ctx: Context, fuel: nat)
    : (res: (Result<Out, RenderError>, Cache))
    requires spare !in arena
    ensures fuel > 0 && Elements(w, c).None? ==> res == (Err(NotEnumerable(c, ctx)), cache)
    ensures res.0.Ok? ==> res.0.value.OList? && Elements(w, c).Some? && |res.0.value.items| == |Elements(w, c).value|
  {
    Render(w, arena[spare := ListNode([memberFields])], s, cache, c, Some(SelRef(spare)), ctx, fuel)
  }

  /**
   Rendering a Blueprint a second time with the same selection answers from
   the cache: the result is the first one, the cache is unchanged, and the
   object's attribute readers are not consulted, so any world in which it is
   still a Blueprint gives the same answer.
   */
  lemma SecondRenderCached(w: World, w2: World, arena: Arena, s: Settings, cache: Cache, o: Value, sel: Sel,
                           ctx: Context, fuel: nat, ctx2: Context, fuel2: nat)
    requires IsBlueprint(w, o) && IsBlueprint(w2, o) && !IsList(arena, Some(sel)) && fuel > 0 && fuel2 > 0
    requires Render(w, arena, s, cache, o, Some(sel), ctx, fuel).0.Ok?
    requires Render(w, arena, s, cache, o, Some(sel), ctx, fuel).0.value != ONil
    ensures var (r1, c1) := Render(w, arena, s, cache, o, Some(sel), ctx, fuel);
      Render(w2, arena, s, c1, o, Some(sel), ctx2, fuel2) == (r1, c1)
  {
  }

  // ---------------------------------------------------------------------
  // The message of CircularRenderingError
  // ---------------------------------------------------------------------

  /** `context[0..10]`: the first eleven segments, or all of them. */
  function HeadSegments(ctx: Context): (r: Context)
    ensures |r| == if |ctx| < 11 then |ctx| else 11
    ensures r <= ctx
  {
    if |ctx| < 11 then ctx else ctx[..11]
  }

  /** `context[-5..-1]`: the last five segments, or `nil` (here `None`) for a shorter context. */
  function TailSegments(ctx: Context): (r: Option<Context>)
    ensures r.Some? <==> |ctx| >= 5
    ensures r.Some? ==> |r.value| == 5 && ctx == ctx[..|ctx| - 5] + r.value
  {
    if |ctx| >= 5 then Some(ctx[|ctx| - 5..]) else None
  }

  /** `Attributor.humanize_context`: the segments joined with dots, `""` for `nil`. */
  function Humanize(ctx: Option<Context>): string {
    match ctx
    case None => ""
    case Some(c) => Join(c, ".")
  }

  /** The message `CircularRenderingError.new(object, context)` passes to `StandardError`. */
  function CircularMessage(w: World, obj: Value, ctx: Context): string {
    "SystemStackError in rendering " + ClassOf(w, obj) + " with context: "
      + Humanize(Some(HeadSegments(ctx))) + "..." + Humanize(TailSegments(ctx))
  }

  /** A context of fewer than five segments is shown whole, followed by `...` and nothing else. */
  lemma ShortContextMessage(w: World, obj: Value, ctx: Context)
    requires |ctx| < 5
    ensures CircularMessage(w, obj, ctx)
      == "SystemStackError in rendering " + ClassOf(w, obj) + " with context: " + Join(ctx, ".") + "..."
  {
  }

  /** Between five and eleven segments, the context is shown whole and then again its last five. */
  lemma MiddleContextMessage(w: World, obj: Value, ctx: Context)
    requires 5 <= |ctx| <= 11
    ensures CircularMessage(w, obj, ctx)
      == "SystemStackError in rendering " + ClassOf(w, obj) + " with context: "
         + Join(ctx, ".") + "..." + Join(ctx[|ctx| - 5..], ".")
  {
    assert HeadSegments(ctx) == ctx;
    assert TailSegments(ctx) == Some(ctx[|ctx| - 5..]);
  }

  /** A longer context is cut: its first eleven segments, `...`, its last five. */
  lemma LongContextMessage(w: World, obj: Value, ctx: Context)
    requires |ctx| > 11
    ensures CircularMessage(w, obj, ctx)
      == "SystemStackError in rendering " + ClassOf(w, obj) + " with context: "
         + Join(ctx[..11], ".") + "..." + Join(ctx[|ctx| - 5..], ".")
  {
    assert HeadSegments(ctx) == ctx[..11];
    assert TailSegments(ctx) == Some(ctx[|ctx| - 5..]);
  }
}
