# praxis-blueprints, modelled in Dafny

Praxis Blueprints describe the shape of API responses. A Blueprint class
declares typed attributes and named views. A view lists the fields to render,
and each field is either a raw attribute or a nested view. A
`FieldExpander` turns a view, a type or an attribute plus a field mask into
a tree of selected fields. A `Renderer` walks an object along that tree,
caching Blueprint renderings per object and mask. `ConfigHash` is the small
block-to-hash accumulator behind option blocks.

This project models those pieces as pure functions over immutable values:

- `Common`: keyed lists (`Lookup`, `Put`, `Names`) that stand in for Ruby's
  ordered hashes, plus the `Option`/`Result` wrappers.
- `Schema`, `Masks`, `Selection`: the type/view graph, field masks, and the
  selection-tree arena. A tree that refers back to an ancestor is a handle
  pointing back into the arena.
- `FieldExpander`: `expand`, `expand_fields`, `expand_view`, `expand_type`
  and the member-attribute case, with stack and history. This version makes
  two repairs the code evidently intends (see Findings): a frame removes from
  the stack only the pair it pushed itself, and `expand_with_member_attribute`
  answers the array it recorded in history. The invariant `Good` says every
  arena node is the tree its history key asks for. `ExpandRootCycleSafe`
  shows the circular-expansion raise is never reached.
- `Denotation`: an independent, depth-indexed meaning of a (node, mask)
  request. `ExpansionMeaning` shows that the expander's tree unfolds to it at
  every depth.
- `FieldExpanderAsWritten`: the expander exactly as written, run on fuel,
  used for the findings. `ExpanderExamples` holds concrete graphs for both
  expanders.
- `Renderer`: `render`, `_render`, `render_collection`, the cache, and the
  `CircularRenderingError` message. Stack exhaustion is modelled as running
  out of fuel.
- `RenderReference`: an uncached reference renderer. Its theorem is that the
  cached renderer returns the reference result whenever the reference
  succeeds.
- `ViewRender`: `View#render`, `View#example` and `CollectionView#example`,
  rendering through a view's expanded fields.
- `Views`: a registry of views with lazily evaluated contents. It covers
  `View#contents`, `View#attribute` (all of its branches and errors),
  `View#expanded_fields`, `View#describe`, and the `CollectionView`
  variants.
- `Blueprint`: `attributes` (with `reference:`), `view`, `_finalize!`,
  `generate_master_view!`, the render decision between views and fields,
  the generated attribute readers, and instance `validate`.
- `ConfigHash`: `from`, `new`, `to_hash` and `method_missing`.

## Model

| member | source | states |
|---|---|---|
| Common.Lookup | lib/praxis-blueprints/view.rb:41-43 | a keyed lookup finds nothing exactly when the key is absent; a hit is an entry under that key |
| Common.Put | lib/praxis-blueprints/view.rb:45-71 | storing under a new key appends at the end; storing under a known key keeps the length |
| Common.PutKeepsOrder | lib/praxis-blueprints/view.rb:45-71 | storing keeps the keys' insertion order; a new key goes last, like a Ruby Hash |
| Common.PutLookup | lib/praxis-blueprints/config_hash.rb:21-35 | after storing, the key reads back the stored value and every other key reads as before |
| FieldExpander.Expand | lib/praxis-blueprints/field_expander.rb:20-42 | a successful expansion keeps the arena invariant, extends the history, and answers a tree that means the requested (node, mask) |
| FieldExpander.ExpandFields | lib/praxis-blueprints/field_expander.rb:44-62 | the hash built for the kept fields lists each of them, in order, with the sub-mask `fields[name] \|\| true` |
| FieldExpander.ExpandView | lib/praxis-blueprints/field_expander.rb:64-81 | a view (or a CollectionView's array around it) expands to a tree that means that view under the mask |
| FieldExpander.ExpandType | lib/praxis-blueprints/field_expander.rb:83-114 | a primitive, a struct or a collection type (through its member attribute) expands to a tree that means that type under the mask |
| FieldExpander.ExpandRoot | lib/praxis-blueprints/field_expander.rb:4-18 | `FieldExpander.expand` from empty stack and history gives a tree that means the request |
| FieldExpander.ExpandSafe | lib/praxis-blueprints/field_expander.rb:20-42 | while every stacked pair has its history entry (an attribute's own pair excepted while only types are expanded below it), `expand` never reaches the circular-expansion raise: it fails only on a mask that is an array or falsy, and history only grows |
| FieldExpander.ExpandTypeSafe | lib/praxis-blueprints/field_expander.rb:83-114 | a type records its pair in history before expanding its attributes or member, so below it the guard finds every stacked pair recorded |
| FieldExpander.ExpandViewSafe | lib/praxis-blueprints/field_expander.rb:64-81 | a view records its pair in history before expanding its contents, so below it the guard finds every stacked pair recorded |
| FieldExpander.FieldsSafe | lib/praxis-blueprints/field_expander.rb:44-62 | expanding the kept fields in turn keeps every stacked pair recorded, since history only grows |
| FieldExpander.ExpandRootCycleSafe | lib/praxis-blueprints/field_expander.rb:20-29 | from a fresh expander the `Circular expansion detected` raise is never reached; the only failure is a non-hash part of the mask reaching `fields.key?` |
| FieldExpander.ExpandRootTotal | lib/praxis-blueprints/field_expander.rb:47-53 | a mask with no array or falsy part anywhere always expands |
| FieldExpander.ExpandRootAll | lib/praxis-blueprints/field_expander.rb:4-6 | the default mask `true` always expands |
| Masks.SubMaskFor | lib/praxis-blueprints/field_expander.rb:54-59 | a kept field's sub-mask is its mask entry, or `true` when the mask is `true`, lacks the key, or holds `nil`/`false` there; it is never falsy |
| FieldExpander.KeptAll | lib/praxis-blueprints/field_expander.rb:47-53 | under `true` every field of the object is kept |
| FieldExpander.KeptExactly | lib/praxis-blueprints/field_expander.rb:47-53 | under a hash mask a field is kept exactly when the mask has its key |
| FieldExpander.KeptInOrder | lib/praxis-blueprints/field_expander.rb:47-53 | kept fields appear in the object's own field order |
| FieldExpander.PrimitiveIsTrue | lib/praxis-blueprints/field_expander.rb:84-90 | a type with neither `attributes` nor `member_attribute` expands to `true`, whatever the mask |
| FieldExpander.EmptyStructIsTrue | lib/praxis-blueprints/field_expander.rb:93 | a struct with no attributes expands to `true` |
| FieldExpander.BuiltShape | lib/praxis-blueprints/field_expander.rb:31-37 | a non-trivial result is an arena node built for exactly that request |
| FieldExpander.TypeNodeShared | lib/praxis-blueprints/field_expander.rb:95 | one history entry per (type, mask): two arena nodes for the same whole type request are the same node |
| FieldExpander.RepeatedTypeRequestIdentical | lib/praxis-blueprints/field_expander.rb:83-114 | expanding the same type with the same mask again answers the same tree and leaves the state unchanged |
| Denotation.UnfoldMeansDenote | lib/praxis-blueprints/field_expander.rb:20-42 | under the invariant, any tree recorded for a request unfolds, at any depth, to the request's meaning |
| Denotation.UnfoldMap | lib/praxis-blueprints/field_expander.rb:54-60 | a built field hash unfolds to the meanings of its fields, each under its sub-mask |
| Denotation.ExpansionMeaning | lib/praxis-blueprints/field_expander.rb:4-18 | the tree `expand` returns unfolds, at every depth, to the independent meaning of the request |
| Denotation.ExpansionMeaningTotal | lib/praxis-blueprints/field_expander.rb:4-18 | under a mask with no array or falsy part (such as `true`) `expand` always succeeds, and its tree unfolds to the request's meaning |
| FieldExpanderAsWritten.Expand | lib/praxis-blueprints/field_expander.rb:20-42 | with the code's `ensure`, a finished call leaves its pair off the stack, even when it returned early from the stack check |
| FieldExpanderAsWritten.TwinSelfViewDiverges | lib/praxis-blueprints/field_expander.rb:21-41 | a view whose two fields both re-enter the view itself never finishes; every fuel bound ends in stack overflow |
| ExpanderExamples.TwinSelfViewDivergesAsWritten | lib/praxis-blueprints/field_expander.rb:21-41 | concrete: a view `{a: itself, b: itself}` overflows the stack under the code as written |
| ExpanderExamples.TwinSelfViewCloses | lib/praxis-blueprints/field_expander.rb:21-41 | the same view, with the stack discipline repaired, expands to one node whose two fields point back at it |
| ExpanderExamples.MemberResultFreshAsWritten | lib/praxis-blueprints/field_expander.rb:104-114 | as written, the first expansion of a collection type answers a fresh array, and a second one answers the array recorded in history: two distinct nodes of equal content |
| ExpanderExamples.MemberResultShared | lib/praxis-blueprints/field_expander.rb:104-114 | repaired, the first expansion answers the recorded array, and a second one returns that same array with the state unchanged |
| ExpanderExamples.MutualStructsClose | lib/praxis-blueprints/field_expander.rb:83-102 | two types that refer to each other expand to two hashes pointing at each other |
| Renderer.NewSettings | lib/praxis-blueprints/renderer.rb:22-28 | `include_nil` is false unless asked for |
| Renderer.NewCache | lib/praxis-blueprints/renderer.rb:22-28 | a new renderer starts with an empty cache |
| Renderer.GetAttr | lib/praxis-blueprints/renderer.rb:75-80 | reading a field fails exactly when the object does not answer it |
| Renderer.DumpOrSelf | lib/praxis-blueprints/renderer.rb:59-66 | `fields == true` renders `dump` for an object that has one and the object itself otherwise |
| Renderer.Render | lib/praxis-blueprints/renderer.rb:42-56 | exhausted depth raises CircularRenderingError; a Blueprint with a non-nil cache entry answers it unchanged; a Blueprint's successful rendering is stored in the cache |
| Renderer.RenderEach | lib/praxis-blueprints/renderer.rb:43-48 | an array mask renders one output per member of the collection |
| Renderer.RenderBody | lib/praxis-blueprints/renderer.rb:58-100 | `true` renders the dump unchanged and leaves the cache as it was; a non-hash mask is an error |
| Renderer.RenderFields | lib/praxis-blueprints/renderer.rb:75-98 | the first unreadable field raises DumpError naming the field, the class and the context; any unreadable field fails the render |
| Renderer.FieldsFailAtFirstUnreadable | lib/praxis-blueprints/renderer.rb:75-80 | once the keys before it have rendered, the first unreadable key fails the hash with the DumpError of that key, the cache as those keys left it |
| Renderer.RenderCollection | lib/praxis-blueprints/renderer.rb:34-36 | a non-enumerable collection is an error; otherwise there is one output per member |
| Renderer.SecondRenderCached | lib/praxis-blueprints/renderer.rb:49-50 | rendering the same Blueprint with the same fields again answers the cached result, whatever the object's current state |
| Renderer.HeadSegments | lib/praxis-blueprints/renderer.rb:15 | `context[0..10]` is the first eleven segments, or all of them |
| Renderer.TailSegments | lib/praxis-blueprints/renderer.rb:16 | `context[-5..-1]` is the last five segments, and nil for a context shorter than five |
| Renderer.ShortContextMessage | lib/praxis-blueprints/renderer.rb:11-18 | with fewer than five segments the message shows the whole context and nothing after the dots |
| Renderer.MiddleContextMessage | lib/praxis-blueprints/renderer.rb:11-18 | with five to eleven segments the message shows the whole context, the dots, then the last five |
| Renderer.LongContextMessage | lib/praxis-blueprints/renderer.rb:11-18 | with more than eleven segments the message shows the first eleven, the dots, then the last five |
| RenderReference.RefRender | lib/praxis-blueprints/renderer.rb:42-100 | the uncached renderer: a list mask renders each member in a sub-context `at(i)`; out of depth is circular |
| RenderReference.RefFields | lib/praxis-blueprints/renderer.rb:75-98 | the output keys are the mask's keys in order, with nil-valued fields dropped unless `include_nil`; `true` fields are dumped and others rendered recursively |
| RenderReference.RefRenderFuel | lib/praxis-blueprints/renderer.rb:54-55 | a rendering that finishes within some depth gives the same result with more |
| RenderReference.RefRenderContext | lib/praxis-blueprints/renderer.rb:42-56 | a successful rendering does not depend on the context it was given |
| RenderReference.RefRenderDeterministic | lib/praxis-blueprints/renderer.rb:42-56 | any two successful renderings of the same object and fields agree |
| RenderReference.CachedRenderAgrees | lib/praxis-blueprints/renderer.rb:49-50 | with a cache that only holds correct renderings, the cached renderer equals the uncached one and keeps the cache correct |
| RenderReference.FreshRendererAgrees | lib/praxis-blueprints/renderer.rb:22-56 | a new renderer gives the uncached result |
| RenderReference.RefFieldsFailAtFirstUnreadable | lib/praxis-blueprints/renderer.rb:75-80 | uncached, the first unreadable key after rendered ones fails the hash with its DumpError |
| RenderReference.RefEachOk | lib/praxis-blueprints/renderer.rb:43-48 | a collection renders exactly when each element renders under its own `at(i)` context |
| RenderReference.CollectionAgrees | lib/praxis-blueprints/renderer.rb:34-36 | `render_collection` renders each member with the member fields, as rendering under `[member_fields]` does |
| Views.Classify | lib/praxis-blueprints/view.rb:38-73 | a non-symbol name, a schema with no attributes, an unknown attribute and an undefined Blueprint view are each their own error; a block makes a new View (a CollectionView for a collection); a Blueprint attribute takes its named view (wrapped for a collection); anything else stays raw |
| Views.Place | lib/praxis-blueprints/view.rb:45-71 | the entry is stored under the field's name in the view and nothing else changes; a created view is the next new one |
| Views.ViewAttribute | lib/praxis-blueprints/view.rb:38-73 | `attribute` succeeds exactly when the entry is acceptable, and then stores it under the field name |
| Views.RunBlock | lib/praxis-blueprints/view.rb:18-25 | running the view's block touches only this view, and forgets the block once it has run cleanly |
| Views.CopyLazy | lib/praxis-blueprints/collection_view.rb:10-16 | a CollectionView built from a member view copies that view's evaluated contents, or reports its error |
| Views.Contents | lib/praxis-blueprints/view.rb:18-25 | contents, once evaluated, is the view's stored entries; a view with nothing pending answers them unchanged |
| Views.ContentsRunsBlock | lib/praxis-blueprints/view.rb:18-25 | evaluating contents succeeds exactly when every declaration of the block succeeds, and answers what they stored |
| Views.ContentsOnce | lib/praxis-blueprints/view.rb:18-25 | evaluating contents a second time answers the same and changes nothing |
| Views.CollectionCopiesMember | lib/praxis-blueprints/collection_view.rb:10-16 | a CollectionView's contents are its member view's contents |
| Views.CopiedOnce | lib/praxis-blueprints/collection_view.rb:10-16 | a copied CollectionView keeps its copy, whatever happens to the registry later |
| Views.ExpandedFields | lib/praxis-blueprints/view.rb:27-32 | the expansion is computed on the evaluated contents, stored, and answered from the store afterwards |
| Views.ExpandedFieldsOnce | lib/praxis-blueprints/view.rb:27-32 | once stored, the expansion is answered again unchanged, whatever expander is passed |
| Views.DescribeEntries | lib/praxis-blueprints/view.rb:82-95 | each field of the description is named after the entry, with a view name exactly for nested views |
| Views.DescribesNames | lib/praxis-blueprints/view.rb:82-95 | the description lists the fields in the order of the contents |
| Views.Describe | lib/praxis-blueprints/view.rb:82-95 | describe fails exactly when contents fails, reports the view kind (`:collection` for a CollectionView), and describes every field |
| Views.ExampleMembers | lib/praxis-blueprints/collection_view.rb:19-22 | a CollectionView example has three members, the i-th built under the context `at(i)` |
| Views.EnvOf | lib/praxis-blueprints/field_expander.rb:71 | the expander's graph of a registry has its types and, per view, that view's name, kind and contents |
| Views.EnvOfWf | lib/praxis-blueprints/field_expander.rb:71 | a well-formed registry is a well-formed expander graph; once every view is evaluated, each view's contents there are what its `contents` answers |
| ViewRender.RenderView | lib/praxis-blueprints/view.rb:34-36 | rendering through a view changes the registry only by its `expanded_fields`, and fails with the view's own error when those cannot be evaluated |
| ViewRender.RenderViewAgrees | lib/praxis-blueprints/view.rb:34-36 | with a new renderer, rendering through a view whose expanded fields evaluate gives the uncached rendering under them, whenever that succeeds |
| ViewRender.ViewExample | lib/praxis-blueprints/view.rb:75-80 | a view's example changes the registry only by its `expanded_fields` |
| ViewRender.ViewExampleRenders | lib/praxis-blueprints/view.rb:75-80 | a view's example is the schema's example rendered under its expanded fields |
| ViewRender.ArrayOf | lib/praxis-blueprints/collection_view.rb:19-22 | the collected Array has no readers, is not dumpable and not a Blueprint, and enumerates exactly the members |
| ViewRender.CollectionViewExample | lib/praxis-blueprints/collection_view.rb:18-27 | a CollectionView's example changes the registry only by its `expanded_fields` |
| ViewRender.CollectedArrayRenders | lib/praxis-blueprints/collection_view.rb:19-26 | the collected Array rendered by a new renderer under an array selection is a list of three, element `i` the member example `i` rendered with the member fields under `at(i)`, whenever each member renders |
| ViewRender.CollectionViewExampleRenders | lib/praxis-blueprints/collection_view.rb:18-27 | a CollectionView's example renders as a list of three, element `i` the member example `i` rendered with the member fields under `at(i)` |
| Blueprint.DeclareView | lib/praxis-blueprints/blueprint.rb:197-203 | `view name` registers a new view under that name, replacing an old one of that name, and leaves other names and classes alone |
| Blueprint.MasterDecls | lib/praxis-blueprints/blueprint.rb:268-277 | the master view declares every attribute once, in order, with the `:default` view |
| Blueprint.MasterViewContents | lib/praxis-blueprints/blueprint.rb:268-277 | `master` names the generated view, whose contents evaluate exactly when every Blueprint-typed attribute has a default view, and then hold every attribute in order, nested exactly for Blueprint types |
| Blueprint.MasterRun | lib/praxis-blueprints/blueprint.rb:270-276 | running the master declarations from attribute k on succeeds exactly when all those attributes are ready |
| Blueprint.MergeLookup | lib/praxis-blueprints/blueprint.rb:88-109 | merged options read the new option when given and the old one otherwise |
| Blueprint.DefineAttributes | lib/praxis-blueprints/blueprint.rb:88-109 | redefinition and a `reference:` that differs from the declared one are errors; otherwise the options are merged, `reference` defaults to the class itself, and the block waits for finalisation |
| Blueprint.ReadAttributes | lib/praxis-blueprints/blueprint.rb:106-108 | reading the attribute before it exists is the "not yet defined" error |
| Blueprint.Finalize | lib/praxis-blueprints/blueprint.rb:216-225 | finalising a pending block defines the attribute and generates the master view unless one exists; without a pending block nothing changes |
| Blueprint.NoRedefinition | lib/praxis-blueprints/blueprint.rb:88-91 | once finalised, `attributes` raises the redefinition error and the attribute reads back |
| Blueprint.ReadBeforeDefinition | lib/praxis-blueprints/blueprint.rb:88-109 | declaring attributes does not define the attribute before finalisation |
| Blueprint.TrueEntries | lib/praxis-blueprints/blueprint.rb:311-313 | a list of field names becomes a mask giving `true` to each of them, and to nothing else |
| Blueprint.PlanRender | lib/praxis-blueprints/blueprint.rb:293-319 | a named view (positional before `view:`) renders that view or raises for an undefined one; with no view, field lists become `true` masks and masks pass through; with neither, the default view |
| Blueprint.ViewIgnoresFields | lib/praxis-blueprints/blueprint.rb:294-308 | a given view name makes the fields argument irrelevant |
| Blueprint.DefaultView | lib/praxis-blueprints/blueprint.rb:294-308 | with no view and no fields, rendering is rendering the `:default` view |
| Blueprint.Read | lib/praxis-blueprints/blueprint.rb:251-266 | a decorator for the name wins; otherwise a nil or already typed value is answered as is and any other is loaded |
| Blueprint.ReaderTyped | lib/praxis-blueprints/blueprint.rb:257-264 | without a decorator the reader answers nil or a typed value |
| Blueprint.ReaderKeepsTyped | lib/praxis-blueprints/blueprint.rb:257-264 | a value already of the attribute's type is answered unchanged |
| Blueprint.Present | lib/praxis-blueprints/blueprint.rb:332-335 | the present-attributes list names exactly the fields that are present |
| Blueprint.FieldErrorsAppend | lib/praxis-blueprints/blueprint.rb:332-341 | the errors of a list of fields are the errors of its parts, in order |
| Blueprint.BusySkipped | lib/praxis-blueprints/blueprint.rb:337-339 | a field already being validated contributes no errors |
| Blueprint.Validate | lib/praxis-blueprints/blueprint.rb:323-349 | a nil context and a validation already in progress are errors; otherwise validation succeeds with the attribute errors followed by the requirements' errors, under the context as segments; the flag is clear afterwards either way |
| Blueprint.ValidateUnder | lib/praxis-blueprints/blueprint.rb:328-349 | a call while validating is a conflict; otherwise the result starts with the attribute errors and ends with the requirements' errors over the present keys |
| Blueprint.Segments | lib/praxis-blueprints/blueprint.rb:325 | a String context becomes the one-segment array holding it; an array is kept |
| Blueprint.FieldErrorsFrom | lib/praxis-blueprints/blueprint.rb:331-341 | an error is an attribute error exactly when some attribute not already validating reports it under its own name |
| Blueprint.StringContext | lib/praxis-blueprints/blueprint.rb:325 | a string context is the one-segment context |
| Blueprint.ValidateAgain | lib/praxis-blueprints/blueprint.rb:323-349 | after any validation, another one is not a conflict |
| ConfigHash.From | lib/praxis-blueprints/config_hash.rb:6-8 | `from` builds the same object `new` does |
| ConfigHash.AnyTruthy | lib/praxis-blueprints/config_hash.rb:31 | `rest.any?` holds exactly when some extra value is neither nil nor false |
| ConfigHash.Accumulate | lib/praxis-blueprints/config_hash.rb:20-37 | a nil, false or absent entry gets the first value (`[value] + rest` when `rest.any?`); a list entry grows at the end; other keys and the key order are untouched; only a truthy non-list entry fails |
| ConfigHash.RunCalls | lib/praxis-blueprints/config_hash.rb:15-18 | running the block leaves every name it never calls as it was |
| ConfigHash.ToHash | lib/praxis-blueprints/config_hash.rb:15-18 | `to_hash` answers the accumulated hash, which is also the object's own hash afterwards |
| ConfigHash.AppendsInOrder | lib/praxis-blueprints/config_hash.rb:21-29 | later calls for a name holding a list append their values to it, call after call, in order |
| ConfigHash.BuildsList | lib/praxis-blueprints/config_hash.rb:20-37 | a name first called with several values and then again holds all their values in call order |

## Left out

- Attributor is not part of this model. `humanize_context` is modelled as joining segments with ".". `load`, `example`, attribute validation and `generate_subcontext` are parameters; a sub-context is the context plus the field name.
- `FieldExpander.ExpandRoot`, `Views.ExpandedFields`: a View's schema is the type of the attribute it was built for, and `expanded_fields` takes the expander as a parameter.
- ActiveSupport instrumentation around `render` is left out, because it does not change the result.
- The thread-local and class-level caches of the expander and the renderer are state that lives outside one call; the model threads its cache through explicitly.
- `_cache_key`: the object's identity, modelled as the object id.
- `Renderer.Render`: a `SystemStackError` is modelled as running out of a fuel bound, so the model does not say at which depth Ruby's stack runs out.
- `Renderer.Render`: a cached `false` is treated as a hit. The code re-renders on a falsy cached value, but a Blueprint rendering is never `false`.
- `Views.Classify`: the `NoAttributes` error stands for a schema that cannot answer `attributes`, a `NoMethodError` in the code.
- `Blueprint.Read`: decorators are a keyed list, or none; an empty decorator Hash behaves like none and is not distinguished.
- `ConfigHash.Accumulate`: `<<` on a truthy entry that is not an Array (a String, say) has type-dependent meaning in Ruby; the model reports it as the `NotAppendable` error.
- `ConfigHash.Accumulate`: an Array stored by a first call is a fresh Array, but an Array passed in through the initial hash may be shared with the caller. Aliasing is not modelled.
- `define_readers!` skips attributes that already have a method; method tables are not modelled, and only the reader body is.
- `Blueprint.Validate`: the nil-context message interpolates `self.name`; message texts are not modelled, only the error kinds.
- `Blueprint.Validate`: the method-level `ensure` clears the validating flag on every exit, including the nil-context and conflict errors. So a rejected nested call also clears the flag of the validation still running. The model keeps this as written: the flag is always clear afterwards.
- `Blueprint.example` depends on random example generation and is left out. `View#example` and `CollectionView#example` are modelled with the schema's `example` as a parameter.
- `ViewRender.ViewExample`, `ViewRender.CollectionViewExample`: a `nil` context (which makes `render` use its default root context) is not modelled; the context is always an array of segments.
- `ViewRender.CollectionViewExampleRenders`: its conclusion holds when the view's expanded fields are an array, as a CollectionView's are. The expander is a parameter of `expanded_fields`, so this is assumed, not derived.
- `Renderer.Render`: the cache is keyed by (object id, selection handle) within one arena. Ruby keys `@cache[object._cache_key]` by the fields Hash, compared structurally, so two equal selection trees under different handles share an entry in Ruby and not in the model. A cache is only meaningful with the arena it was filled from; `RenderReference.CacheSound` is stated per arena.
- `Renderer.SecondRenderCached`: it is about the same handle in the same arena. A second render with a structurally equal but different selection tree hits the cache in Ruby but is rendered again in the model.
- `FieldExpander.Expand`: the expander walks an `Env` whose views are already evaluated, where Ruby calls `object.contents` during expansion (line 71 of field_expander.rb). `Views.EnvOfWf` gives such an `Env` for a registry whose views are all evaluated. Evaluating contents only touches the view itself and views it creates, and a second evaluation changes nothing (`Views.ContentsOnce`). So evaluating first is expected to give the contents Ruby's expander sees, but this is not proved. Evaluating on demand in Ruby's order is not modelled, and neither is an evaluation error raised part-way through an expansion.
- `Masks.SubMasks`: an array mask always holds exactly one mask. `fields[0]` of an empty array, which is `nil`, is not modelled.
- The `Blueprint` class machinery (`inherited`, `finalize!` over all classes, `cache`, coercion via `load`, `dump`, `to_h`) is left out: it is Ruby metaprogramming around the modelled operations.

## Findings

| source | as written | input that shows it | evidently intended | confidence | as-written member | corrected member |
|---|---|---|---|---|---|---|
| lib/praxis-blueprints/field_expander.rb:21-41 | the early return for a pair already on the stack runs the `ensure`, which deletes that pair from the stack although this frame did not push it | a view whose fields `a` and `b` are both the view itself, expanded with `true`: after `a` returns early, `b` finds the pair gone and recurses without end | only the frame that pushed a pair removes it, so re-entry keeps closing the cycle | not executed | ExpanderExamples.TwinSelfViewDivergesAsWritten | ExpanderExamples.TwinSelfViewCloses |
| lib/praxis-blueprints/field_expander.rb:104-114 | `expand_with_member_attribute` records an array in history but answers `result`, a second array with the same members | a collection of a primitive type, expanded twice with `true` in one expander: the first call answers one array, the second answers the recorded one, a different object | answer the history entry, like `expand_type` does, so equal requests share one tree | not executed | ExpanderExamples.MemberResultFreshAsWritten | ExpanderExamples.MemberResultShared |
