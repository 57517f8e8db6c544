/**
 Small schema graphs on which the expander's behaviour is worked out in
 full: cycles that close, and the two places where the code as written
 departs from what it evidently intends.
 */
module ExpanderExamples {
  import opened Common
  import opened Schema
  import opened Masks
  import opened Selection
  import opened FieldExpander
  import AW = FieldExpanderAsWritten

  /** View 0: a plain view whose entries `a` and `b` both name view 0 itself. */
  function TwinEnv(): Env {
    Env(map[], map[0 := ViewDef("default", Standard, [("a", Nested(0)), ("b", Nested(0))])])
  }

  /** Type 0 is a collection of type 1, which answers neither probe. */
  function ListEnv(): Env {
    Env(map[0 := Collection(1), 1 := Primitive], map[])
  }

  /** Type 0 has an attribute `b` of type 1, and type 1 an attribute `a` of type 0. */
  function PairEnv(): Env {
    Env(map[0 := Struct([Attribute("b", 1)], true), 1 := Struct([Attribute("a", 0)], true)], map[])
  }

  lemma TwinEnvWf()
    ensures WfEnv(TwinEnv()) && ViewNode(0) in Nodes(TwinEnv())
  {
    var vd := TwinEnv().views[0];
    assert WfEntry(TwinEnv(), vd.contents[0].1) && WfEntry(TwinEnv(), vd.contents[1].1);
  }

  /** As written: expanding the view never finishes, whatever the stack budget. */
  lemma TwinSelfViewDivergesAsWritten(fuel: nat)
    ensures TwinEnv().views[0].contents == [("a", Nested(0)), ("b", Nested(0))]
    ensures AW.Expand(TwinEnv(), AW.AwEmpty(), ViewNode(0), All, fuel).0 == Err(AW.StackOverflow)
  {
    TwinEnvWf();
    AW.TwinSelfViewDiverges(TwinEnv(), 0, AW.AwEmpty(), fuel);
  }

  /** The state once the view's hash is open: the one pending node. */
  function TwinOpened(): ExpState {
    Open(EmptyState(), Pair(ViewNode(0), All), MapNode([]))
  }

  /** Inside the open view, a self-reference is answered from history with the view's own node. */
  lemma TwinSelf()
    ensures WfEnv(TwinEnv()) && ViewNode(0) in Nodes(TwinEnv()) && All in SubMasks(All)
    ensures Pair(ViewNode(0), All) in Universe(TwinEnv(), All)
    ensures Expand(TwinEnv(), All, {Pair(ViewNode(0), All)}, TwinOpened(), ViewNode(0), All, {0})
      == (Ok(SelRef(0)), TwinOpened())
  {
    TwinEnvWf();
    SelfAndAllIn(All);
    PushShrinks(TwinEnv(), All, {}, Pair(ViewNode(0), All));
  }

  lemma TwinTail()
    ensures WfEnv(TwinEnv()) && ViewNode(0) in Nodes(TwinEnv()) && All in SubMasks(All)
    ensures Pair(ViewNode(0), All) in Universe(TwinEnv(), All)
    ensures ExpandFields(TwinEnv(), All, {Pair(ViewNode(0), All)}, TwinOpened(), [("b", ViewNode(0))], All, {0})
      == (Ok([("b", SelRef(0))]), TwinOpened())
  {
    TwinSelf();
    var tail := [("b", ViewNode(0))];
    assert tail[0].1 == ViewNode(0) && tail[1..] == [];
    assert SubMaskFor(All, "b") == All;
    assert [("b", SelRef(0))] + [] == [("b", SelRef(0))];
  }

  /** Inside the open view, each self-reference is answered from history with the view's own node. */
  lemma TwinFields()
    ensures WfEnv(TwinEnv()) && ViewNode(0) in Nodes(TwinEnv()) && All in SubMasks(All)
    ensures Pair(ViewNode(0), All) in Universe(TwinEnv(), All)
    ensures ExpandFields(TwinEnv(), All, {Pair(ViewNode(0), All)}, TwinOpened(),
                         [("a", ViewNode(0)), ("b", ViewNode(0))], All, {0})
      == (Ok([("a", SelRef(0)), ("b", SelRef(0))]), TwinOpened())
  {
    TwinSelf();
    TwinTail();
    var kept := [("a", ViewNode(0)), ("b", ViewNode(0))];
    assert kept[0].1 == ViewNode(0) && kept[1..] == [("b", ViewNode(0))];
    assert SubMaskFor(All, "a") == All;
    assert [("a", SelRef(0))] + [("b", SelRef(0))] == [("a", SelRef(0)), ("b", SelRef(0))];
  }

  /** The view's own expansion, entered with its request on the stack. */
  lemma TwinView()
    ensures WfEnv(TwinEnv()) && All in SubMasks(All)
    ensures Pair(ViewNode(0), All) in Universe(TwinEnv(), All)
    ensures ExpandView(TwinEnv(), All, {Pair(ViewNode(0), All)}, EmptyState(), 0, All, {})
      == (Ok(SelRef(0)), Fill(TwinOpened(), 0, MapNode([("a", SelRef(0)), ("b", SelRef(0))])))
  {
    var env := TwinEnv();
    TwinFields();
    var kept := ViewChildren(env.views[0].contents);
    KeptAll(kept);
    assert kept == [("a", ViewNode(0)), ("b", ViewNode(0))];
    assert SelectFields(kept, All) == Ok(kept);
    assert {} + {0} == {0};
  }

  /** Repaired: the view closes onto itself; both entries name the view's own node. */
  lemma TwinSelfViewCloses()
    ensures ExpandRoot(TwinEnv(), ViewNode(0), All).0 == Ok(SelRef(0))
    ensures ExpandRoot(TwinEnv(), ViewNode(0), All).1.arena[0] == MapNode([("a", SelRef(0)), ("b", SelRef(0))])
  {
    TwinView();
    TwinEnvWf();
    assert {} + {Pair(ViewNode(0), All)} == {Pair(ViewNode(0), All)};
    assert ExpandRoot(TwinEnv(), ViewNode(0), All)
      == ExpandView(TwinEnv(), All, {Pair(ViewNode(0), All)}, EmptyState(), 0, All, {});
  }

  lemma ListEnvWf()
    ensures WfEnv(ListEnv()) && TypeNode(0) in Nodes(ListEnv()) && TypeNode(1) in Nodes(ListEnv())
  {
  }

  /**
   As written: the first expansion of the collection type returns the array
   it built, the second the history entry. The two arrays are equal but not
   the same one.
   */
  lemma MemberResultFreshAsWritten()
    ensures var (r1, st1) := AW.Expand(ListEnv(), AW.AwEmpty(), TypeNode(0), All, 5);
      var (r2, st2) := AW.Expand(ListEnv(), st1, TypeNode(0), All, 5);
      && r1 == Ok(SelRef(1)) && r2 == Ok(SelRef(0))
      && st2.arena[0] == ListNode([SelTrue]) && st2.arena[1] == ListNode([SelTrue])
  {
    var env := ListEnv();
    ListEnvWf();
    var p0 := Pair(TypeNode(0), All);
    var p1 := Pair(TypeNode(1), All);
    var s1 := AW.AwEmpty().(stack := {p0});
    var o := AW.AwOpen(s1, p0, ListNode([]));
    assert o.stack == {p0} && p1 !in o.stack;
    assert o.stack + {p1} == {p0, p1} && {p0, p1} - {p1} == {p0};
    assert AW.ExpandType(env, o.(stack := {p0, p1}), 1, All, 3) == (Ok(SelTrue), o.(stack := {p0, p1}));
    assert AW.Expand(env, o, TypeNode(1), All, 4) == (Ok(SelTrue), o);
    var a := AW.AppendInto(o, SelRef(0), SelTrue);
    var fin := AW.AwAlloc(a, ListNode([SelTrue]));
    assert AW.ExpandType(env, s1, 0, All, 4) == (Ok(SelRef(1)), fin);
    var st1 := fin.(stack := fin.stack - {p0});
    assert AW.AwEmpty().stack + {p0} == {p0};
    assert AW.Expand(env, AW.AwEmpty(), TypeNode(0), All, 5) == (Ok(SelRef(1)), st1);
    assert AW.ExpandType(env, st1.(stack := st1.stack + {p0}), 0, All, 4).0 == Ok(SelRef(0));
  }

  /** The state once the collection type is finished: its one-element array. */
  function ListDone(): ExpState {
    Fill(Open(EmptyState(), Pair(TypeNode(0), All), ListNode([])), 0, ListNode([SelTrue]))
  }

  /** Inside the open array, the member type answers plain `true`. */
  lemma ListMember()
    ensures WfEnv(ListEnv()) && All in SubMasks(All)
    ensures TypeNode(1) in Nodes(ListEnv()) && Pair(TypeNode(0), All) in Universe(ListEnv(), All)
    ensures Expand(ListEnv(), All, {Pair(TypeNode(0), All)}, Open(EmptyState(), Pair(TypeNode(0), All), ListNode([])),
                   TypeNode(1), All, {0})
      == (Ok(SelTrue), Open(EmptyState(), Pair(TypeNode(0), All), ListNode([])))
  {
    var env := ListEnv();
    ListEnvWf();
    SelfAndAllIn(All);
    var p0 := Pair(TypeNode(0), All);
    var p1 := Pair(TypeNode(1), All);
    PushShrinks(env, All, {}, p0);
    PushShrinks(env, All, {p0}, p1);
  }

  /** The first request builds the array at handle 0. */
  lemma ListFirst()
    ensures WfEnv(ListEnv()) && All in SubMasks(All)
    ensures Pair(TypeNode(0), All) in Universe(ListEnv(), All)
    ensures ExpandType(ListEnv(), All, {Pair(TypeNode(0), All)}, EmptyState(), 0, All, {}) == (Ok(SelRef(0)), ListDone())
  {
    ListMember();
    assert Unwrap(All) == All && {} + {0} == {0};
  }

  /** Repaired: both requests answer with the one node history holds. */
  lemma MemberResultShared()
    ensures var (r1, st1) := ExpandRoot(ListEnv(), TypeNode(0), All);
      && r1 == Ok(SelRef(0))
      && Expand(ListEnv(), All, {}, st1, TypeNode(0), All, {}) == (r1, st1)
  {
    var env := ListEnv();
    ListFirst();
    var p0 := Pair(TypeNode(0), All);
    assert {} + {p0} == {p0};
    assert ExpandRoot(env, TypeNode(0), All) == (Ok(SelRef(0)), ListDone());
    assert p0 in ListDone().history && ListDone().history[p0] == SelRef(0);
    assert ExpandType(env, All, {p0}, ListDone(), 0, All, {}) == (Ok(SelRef(0)), ListDone());
  }

  lemma PairEnvWf()
    ensures WfEnv(PairEnv()) && TypeNode(0) in Nodes(PairEnv()) && TypeNode(1) in Nodes(PairEnv())
  {
  }

  /** The state once type 0's hash is open: the one pending node. */
  function PairOpened(): ExpState {
    Open(EmptyState(), Pair(TypeNode(0), All), MapNode([]))
  }

  /** The state once type 1 is finished inside it. */
  function PairInnerDone(): ExpState {
    Fill(Open(PairOpened(), Pair(TypeNode(1), All), MapNode([])), 1, MapNode([("a", SelRef(0))]))
  }

  /** Inside type 0, type 1's attribute `a` is answered from history with type 0's own node. */
  lemma PairInner()
    ensures WfEnv(PairEnv()) && TypeNode(1) in Nodes(PairEnv()) && All in SubMasks(All)
    ensures Pair(TypeNode(0), All) in Universe(PairEnv(), All)
    ensures Expand(PairEnv(), All, {Pair(TypeNode(0), All)}, PairOpened(), TypeNode(1), All, {0})
      == (Ok(SelRef(1)), PairInnerDone())
  {
    var env := PairEnv();
    PairEnvWf();
    SelfAndAllIn(All);
    var p0 := Pair(TypeNode(0), All);
    var p1 := Pair(TypeNode(1), All);
    PushShrinks(env, All, {}, p0);
    PushShrinks(env, All, {p0}, p1);
    var k1 := AttrChildren(env.types[1].attrs);
    KeptAll(k1);
    assert k1 == [("a", TypeNode(0))];
    StructChildrenIn(env, 1);
    var o0 := PairOpened();
    var o1 := Open(o0, p1, MapNode([]));
    assert Expand(env, All, {p0, p1}, o1, TypeNode(0), All, {0, 1}) == (Ok(SelRef(0)), o1);
    assert k1[1..] == [];
    assert ExpandFields(env, All, {p0, p1}, o1, k1[1..], All, {0, 1}) == (Ok([]), o1);
    assert [("a", SelRef(0))] + [] == [("a", SelRef(0))];
    assert ExpandFields(env, All, {p0, p1}, o1, k1, All, {0, 1}) == (Ok([("a", SelRef(0))]), o1);
    assert SelectFields(AttrChildren(env.types[1].attrs), All) == Ok(k1);
    assert p1 !in o0.history && o0.next == 1 && |env.types[1].attrs| == 1;
    assert {0} + {1} == {0, 1} && {p0} + {p1} == {p0, p1};
    assert ExpandType(env, All, {p0, p1}, o0, 1, All, {0}) == (Ok(SelRef(1)), PairInnerDone());
  }

  /**
   Two structs that refer to each other: the expansion terminates, and the
   inner reference to the first struct is the root node itself.
   */
  lemma MutualStructsClose()
    ensures var (r, st) := ExpandRoot(PairEnv(), TypeNode(0), All);
      && r == Ok(SelRef(0))
      && st.arena[0] == MapNode([("b", SelRef(1))])
      && st.arena[1] == MapNode([("a", SelRef(0))])
  {
    var env := PairEnv();
    PairInner();
    PairEnvWf();
    var p0 := Pair(TypeNode(0), All);
    var k0 := AttrChildren(env.types[0].attrs);
    KeptAll(k0);
    assert k0 == [("b", TypeNode(1))];
    StructChildrenIn(env, 0);
    var f1 := PairInnerDone();
    assert k0[1..] == [];
    assert ExpandFields(env, All, {p0}, f1, k0[1..], All, {0}) == (Ok([]), f1);
    assert [("b", SelRef(1))] + [] == [("b", SelRef(1))];
    assert ExpandFields(env, All, {p0}, PairOpened(), k0, All, {0}) == (Ok([("b", SelRef(1))]), f1);
    var f0 := Fill(f1, 0, MapNode([("b", SelRef(1))]));
    assert {} + {p0} == {p0} && {} + {0} == {0};
    assert ExpandType(env, All, {p0}, EmptyState(), 0, All, {}) == (Ok(SelRef(0)), f0);
    assert ExpandRoot(env, TypeNode(0), All) == (Ok(SelRef(0)), f0);
  }
}
