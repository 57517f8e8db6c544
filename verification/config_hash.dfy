/**
 `Praxis::ConfigHash`: a block of `name value, *rest` calls, each caught by
 `method_missing`, accumulates a hash. The first call for a name stores its
 value (or `[value] + rest`); later calls append to the stored list.
 */
module ConfigHash {
  import opened Common

  /** A block handed to a call, by identity. */
  type BlockId = nat

  /** A Ruby value as the accumulator sees it. */
  datatype CVal = CNil | CFalse | CScalar(text: string) | CList(items: seq<CVal>) | CBlock(b: BlockId)

  /** Ruby truthiness: everything but nil and false. */
  predicate Truthy(v: CVal) {
    !v.CNil? && !v.CFalse?
  }

  /** One `name value, *rest, &block` call inside the configuration block. */
  datatype Call = Call(name: Name, value: CVal, rest: seq<CVal>, block: Option<BlockId>)

  /** `@hash` and the configuration block (its calls, in order). */
  datatype Config = Config(hash: seq<(Name, CVal)>, block: seq<Call>)

  /** `existing << value` on an entry that is not an Array: Ruby's type-dependent `<<`, outside this model. */
  datatype ConfigError = NotAppendable(name: Name, existing: CVal)

  /** `ConfigHash.new(hash, &block)`. */
  function New(hash: seq<(Name, CVal)>, block: seq<Call>): (c: Config)
    ensures c.hash == hash && c.block == block
  {
    Config(hash, block)
  }

  /** `ConfigHash.from(hash, &block)`: the same object `new` builds. */
  function From(hash: seq<(Name, CVal)>, block: seq<Call>): (c: Config)
    ensures c == New(hash, block)
    ensures c.hash == hash && c.block == block
  {
    New(hash, block)
  }

  /** `rest.any?`: some extra value is truthy. */
  function AnyTruthy(rest: seq<CVal>): (r: bool)
    ensures r <==> exists i :: 0 <= i < |rest| && Truthy(rest[i])
  {
    if rest == [] then false
    else
      assert forall i :: 1 <= i < |rest| ==> rest[1..][i - 1] == rest[i];
      Truthy(rest[0]) || AnyTruthy(rest[1..])
  }

  /** What a first call stores: `[value] + rest` when `rest.any?`, else `value` alone. */
  function FirstValue(c: Call): CVal {
    if AnyTruthy(c.rest) then CList([c.value] + c.rest) else c.value
  }

  /** What a later call appends: `[value, block]` with a block (extra values dropped), else `value` and each of `rest`. */
  function Appended(c: Call): seq<CVal> {
    if c.block.Some? then [CList([c.value, CBlock(c.block.value)])] else [c.value] + c.rest
  }

  /**
   `method_missing(name, value, *rest, &block)`. A nil or false entry counts
   as absent and is replaced by the first value; a list entry grows at its
   end; no other entry changes, and a new name goes last.
   */
  function Accumulate(hash: seq<(Name, CVal)>, c: Call): (r: Result<seq<(Name, CVal)>, ConfigError>)
    ensures r.Ok? ==> forall k :: k != c.name ==> Lookup(r.value, k) == Lookup(hash, k)
    ensures r.Ok? ==> Names(r.value) == if HasKey(hash, c.name) then Names(hash) else Names(hash) + [c.name]
    ensures !(Lookup(hash, c.name).Some? && Truthy(Lookup(hash, c.name).value)) ==>
      r.Ok? && Lookup(r.value, c.name) == Some(FirstValue(c))
    ensures Lookup(hash, c.name).Some? && Lookup(hash, c.name).value.CList? ==>
      r.Ok? && Lookup(r.value, c.name) == Some(CList(Lookup(hash, c.name).value.items + Appended(c)))
    ensures r.Err? <==>
      Lookup(hash, c.name).Some? && Truthy(Lookup(hash, c.name).value) && !Lookup(hash, c.name).value.CList?
  {
    var existing := Lookup(hash, c.name);
    var stored :=
      if existing.Some? && Truthy(existing.value) then
        if existing.value.CList? then Ok(CList(existing.value.items + Appended(c)))
        else Err(NotAppendable(c.name, existing.value))
      else Ok(FirstValue(c));
    match stored
    case Err(e) => Err(e)
    case Ok(v) =>
      PutKeepsOrder(hash, c.name, v);
      forall k
        ensures Lookup(Put(hash, c.name, v), k) == if k == c.name then Some(v) else Lookup(hash, k)
      {
        PutLookup(hash, c.name, v, k);
      }
      Ok(Put(hash, c.name, v))
  }

  /** No call of `calls` is for the name `k`. */
  predicate NotCalled(calls: seq<Call>, k: Name) {
    forall i :: 0 <= i < |calls| ==> calls[i].name != k
  }

  /** The calls of the block, in order; a failing call stops the block with the entries so far kept. */
  function RunCalls(hash: seq<(Name, CVal)>, calls: seq<Call>): (res: (seq<(Name, CVal)>, Option<ConfigError>))
    ensures forall k :: NotCalled(calls, k) ==> Lookup(res.0, k) == Lookup(hash, k)
    decreases |calls|
  {
    if calls == [] then (hash, None)
    else
      match Accumulate(hash, calls[0])
      case Err(e) => (hash, Some(e))
      case Ok(h1) =>
        var res := RunCalls(h1, calls[1..]);
        assert forall k :: NotCalled(calls, k) ==> NotCalled(calls[1..], k) by {
          forall k | NotCalled(calls, k)
            ensures NotCalled(calls[1..], k)
          {
            forall i | 0 <= i < |calls[1..]|
              ensures calls[1..][i].name != k
            {
              assert calls[1..][i] == calls[i + 1];
            }
          }
        }
        res
  }

  /** `to_hash`: runs the configuration block against `@hash` (in place) and answers with it. */
  function ToHash(cfg: Config): (res: (Config, Result<seq<(Name, CVal)>, ConfigError>))
    ensures res.0.block == cfg.block
    ensures res.1.Ok? ==> res.1.value == res.0.hash
    ensures forall k :: NotCalled(cfg.block, k) ==> Lookup(res.0.hash, k) == Lookup(cfg.hash, k)
  {
    var (h, e) := RunCalls(cfg.hash, cfg.block);
    (cfg.(hash := h), if e.Some? then Err(e.value) else Ok(h))
  }

  /** Everything a run of calls appends, in order. */
  function AllAppended(calls: seq<Call>): seq<CVal> {
    if calls == [] then [] else Appended(calls[0]) + AllAppended(calls[1..])
  }

  /** A run of calls whose first call succeeds continues from the entries that call leaves. */
  lemma RunCallsStep(hash: seq<(Name, CVal)>, calls: seq<Call>)
    requires calls != [] && Accumulate(hash, calls[0]).Ok?
    ensures RunCalls(hash, calls) == RunCalls(Accumulate(hash, calls[0]).value, calls[1..])
  {
  }

  lemma AllAppendedStep(items: seq<CVal>, calls: seq<Call>)
    requires calls != []
    ensures items + Appended(calls[0]) + AllAppended(calls[1..]) == items + AllAppended(calls)
  {
  }

  /** Later calls for a name holding a list append their values to it, call after call, in order. */
  lemma {:induction false} AppendsInOrder(hash: seq<(Name, CVal)>, n: Name, items: seq<CVal>, calls: seq<Call>)
    requires Lookup(hash, n) == Some(CList(items))
    requires forall i :: 0 <= i < |calls| ==> calls[i].name == n
    ensures RunCalls(hash, calls).1.None?
    ensures Lookup(RunCalls(hash, calls).0, n) == Some(CList(items + AllAppended(calls)))
    decreases |calls|
  {
    if calls == [] {
      assert items + [] == items;
    } else {
      var c := calls[0];
      var r := Accumulate(hash, c);
      assert r.Ok? && Lookup(r.value, n) == Some(CList(items + Appended(c)));
      var rest := calls[1..];
      assert forall i :: 0 <= i < |rest| ==> rest[i].name == n by {
        forall i | 0 <= i < |rest| ensures rest[i].name == n {
          assert rest[i] == calls[i + 1];
        }
      }
      AppendsInOrder(r.value, n, items + Appended(c), rest);
      RunCallsStep(hash, calls);
      AllAppendedStep(items, calls);
    }
  }

  /**
   A name first called with several values, then called again, holds
   `[value] + rest` followed by everything the later calls append.
   */
  lemma BuildsList(hash: seq<(Name, CVal)>, first: Call, later: seq<Call>)
    requires !HasKey(hash, first.name) && first.block.None? && AnyTruthy(first.rest)
    requires forall i :: 0 <= i < |later| ==> later[i].name == first.name
    ensures var res := RunCalls(hash, [first] + later);
      res.1.None? && Lookup(res.0, first.name) == Some(CList(AllAppended([first] + later)))
  {
    var h1 := Accumulate(hash, first).value;
    assert ([first] + later)[1..] == later;
    AppendsInOrder(h1, first.name, [first.value] + first.rest, later);
    assert AllAppended([first] + later) == [first.value] + first.rest + AllAppended(later);
  }
}
