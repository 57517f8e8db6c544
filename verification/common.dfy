/**
 Shared vocabulary: optional values, results with an error, field names and
 the ordered name-keyed lists that stand for Ruby's insertion-ordered hashes.
 */
module Common {

  /** A field or attribute name (a Ruby Symbol). */
  type Name = string

  datatype Option<+T> = None | Some(value: T) {
    function GetOr(default: T): T {
      match this
      case Some(v) => v
      case None => default
    }
  }

  datatype Result<+T, +E> = Ok(value: T) | Err(error: E)

  /** The keys of an ordered, name-keyed list, in order. */
  function Names<V>(entries: seq<(Name, V)>): (r: seq<Name>)
    ensures |r| == |entries|
    ensures forall i :: 0 <= i < |entries| ==> r[i] == entries[i].0
  {
    if entries == [] then [] else [entries[0].0] + Names(entries[1..])
  }

  /** True when no name occurs twice: the list is a faithful image of a Ruby Hash. */
  predicate UniqueNames<V>(entries: seq<(Name, V)>) {
    forall i, j :: 0 <= i < j < |entries| ==> entries[i].0 != entries[j].0
  }

  predicate HasKey<V>(entries: seq<(Name, V)>, k: Name) {
    exists i :: 0 <= i < |entries| && entries[i].0 == k
  }

  /** The value stored under `k`: the first entry with that name, as `Hash#[]` finds it. */
  function Lookup<V>(entries: seq<(Name, V)>, k: Name): (r: Option<V>)
    ensures r.None? <==> !HasKey(entries, k)
    ensures r.Some? ==> exists i :: 0 <= i < |entries| && entries[i] == (k, r.value)
  {
    if entries == [] then None
    else if entries[0].0 == k then Some(entries[0].1)
    else
      var r := Lookup(entries[1..], k);
      assert r.Some? ==> exists i :: 1 <= i < |entries| && entries[i] == (k, r.value) by {
        if r.Some? {
          var i :| 0 <= i < |entries[1..]| && entries[1..][i] == (k, r.value);
          assert entries[i + 1] == (k, r.value);
        }
      }
      r
  }

  /**
   `hash[k] = v` on an insertion-ordered hash: an existing key keeps its
   position and takes the new value; a new key goes to the end.
   */
  function Put<V>(entries: seq<(Name, V)>, k: Name, v: V): (r: seq<(Name, V)>)
    ensures HasKey(entries, k) ==> |r| == |entries|
    ensures !HasKey(entries, k) ==> r == entries + [(k, v)]
  {
    if entries == [] then [(k, v)]
    else if entries[0].0 == k then [(k, v)] + entries[1..]
    else [entries[0]] + Put(entries[1..], k, v)
  }

  lemma {:induction false} PutKeepsOrder<V>(entries: seq<(Name, V)>, k: Name, v: V)
    ensures HasKey(entries, k) ==> Names(Put(entries, k, v)) == Names(entries)
    ensures !HasKey(entries, k) ==> Names(Put(entries, k, v)) == Names(entries) + [k]
  {
    if entries != [] && entries[0].0 != k {
      PutKeepsOrder(entries[1..], k, v);
      assert HasKey(entries, k) ==> HasKey(entries[1..], k) by {
        if HasKey(entries, k) {
          var i :| 0 <= i < |entries| && entries[i].0 == k;
          assert entries[1..][i - 1].0 == k;
        }
      }
      assert Names(entries) == [entries[0].0] + Names(entries[1..]);
    }
  }

  lemma {:induction false} PutLookup<V>(entries: seq<(Name, V)>, k: Name, v: V, k': Name)
    ensures Lookup(Put(entries, k, v), k') == if k' == k then Some(v) else Lookup(entries, k')
  {
    if entries != [] && entries[0].0 != k {
      PutLookup(entries[1..], k, v, k');
    }
  }

  /** Every entry of `Put(entries, k, v)` is the new one or an old one. */
  lemma {:induction false} PutMembers<V>(entries: seq<(Name, V)>, k: Name, v: V)
    ensures forall i :: 0 <= i < |Put(entries, k, v)| ==>
      Put(entries, k, v)[i] == (k, v) || Put(entries, k, v)[i] in entries
  {
    if entries != [] && entries[0].0 != k {
      PutMembers(entries[1..], k, v);
      var r := Put(entries, k, v);
      forall i | 0 <= i < |r|
        ensures r[i] == (k, v) || r[i] in entries
      {
        if i > 0 {
          assert r[i] == Put(entries[1..], k, v)[i - 1];
        }
      }
    }
  }

  /** In a list without repeated names, the value found under a name is the one stored with it. */
  lemma {:induction false} LookupAt<V>(entries: seq<(Name, V)>, i: nat)
    requires UniqueNames(entries) && i < |entries|
    ensures Lookup(entries, entries[i].0) == Some(entries[i].1)
  {
    if i > 0 {
      assert entries[0].0 != entries[i].0;
      LookupAt(entries[1..], i - 1);
    }
  }

  /** `Put` keeps a list free of repeated names. */
  lemma {:induction false} PutUnique<V>(entries: seq<(Name, V)>, k: Name, v: V)
    requires UniqueNames(entries)
    ensures UniqueNames(Put(entries, k, v))
  {
    var r := Put(entries, k, v);
    if entries == [] {
    } else if entries[0].0 == k {
      assert forall i :: 0 <= i < |r| ==> r[i].0 == entries[i].0;
    } else {
      var rest := Put(entries[1..], k, v);
      PutUnique(entries[1..], k, v);
      PutMembers(entries[1..], k, v);
      forall j | 0 <= j < |rest|
        ensures rest[j].0 != entries[0].0
      {
        if rest[j] != (k, v) {
          var m :| 0 <= m < |entries[1..]| && entries[1..][m] == rest[j];
          assert entries[m + 1] == rest[j];
        }
      }
      forall i, j | 0 <= i < j < |r|
        ensures r[i].0 != r[j].0
      {
        assert r[j] == rest[j - 1];
        if i > 0 {
          assert r[i] == rest[i - 1];
        }
      }
    }
  }

  /** Whether `k` is a key after `Put`: exactly when it was one or is the key put. */
  lemma PutHasKey<V>(entries: seq<(Name, V)>, k: Name, v: V, x: Name)
    ensures HasKey(Put(entries, k, v), x) <==> x == k || HasKey(entries, x)
  {
    PutLookup(entries, k, v, x);
  }

  /** Decimal digits of a natural number, as Ruby's string interpolation writes it. */
  function NatToString(n: nat): (s: string)
    ensures |s| >= 1
    ensures forall i :: 0 <= i < |s| ==> '0' <= s[i] <= '9'
    decreases n
  {
    var d := [(('0' as int) + n % 10) as char];
    if n < 10 then d else NatToString(n / 10) + d
  }

  /** `array.join(sep)`. */
  function Join(parts: seq<string>, sep: string): string {
    if parts == [] then ""
    else if |parts| == 1 then parts[0]
    else parts[0] + sep + Join(parts[1..], sep)
  }

  /** The path segment `"at(i)"` that names element `i` of a collection. */
  function AtSegment(i: nat): string {
    "at(" + NatToString(i) + ")"
  }
}
