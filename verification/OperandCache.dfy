/** The per-call-site operand cache of the distance functions: a slot per argument keeps the last decoded
    vector, recognised by its bytes or by its on-disk TOAST identity, and its squared norm. */
module OperandCache {
  import opened Options
  import opened Kernels

  type Bytes = seq<bv8>

  /** A datum either carries its bytes or points to them. */
  datatype Datum = Inline(bytes: Bytes) | OnDisk(ident: nat)

  /** How stored values are fetched and decoded; while a cache lives an identity names one value. */
  datatype Store<!E> = Store(toast: nat -> Bytes, decode: Bytes -> seq<E>)

  function Detoast<E>(store: Store<E>, d: Datum): Bytes {
    if d.Inline? then d.bytes else store.toast(d.ident)
  }

  function IdentOf(d: Datum): Option<nat> {
    if d.OnDisk? then Some(d.ident) else None
  }

  /** What a call without any cache would decode. */
  function Fresh<E>(store: Store<E>, d: Datum): seq<E> {
    store.decode(Detoast(store, d))
  }

  class Slot<E(==), F> {
    var raw: Bytes
    var vec: Option<seq<E>>
    var norm2: Option<F>
    var hit: bool
    var toastPtr: Option<nat>

    ghost predicate Valid(store: Store<E>, ops: Ops<E, F>)
      reads this
    {
      && (vec.Some? ==> vec.value == store.decode(raw) && (toastPtr.Some? ==> raw == store.toast(toastPtr.value)))
      && (norm2.Some? ==> vec.Some? && norm2.value == Norm2(ops, vec.value))
    }

    constructor ()
      ensures vec == None && norm2 == None && toastPtr == None && !hit
    {
      raw, vec, norm2, hit, toastPtr := [], None, None, false, None;
    }

    /** Reuses the vector when the TOAST identity matches, without fetching, or when the bytes match;
        else decodes and forgets the norm. */
    method Get(store: Store<E>, ghost ops: Ops<E, F>, d: Datum) returns (v: seq<E>)
      requires Valid(store, ops)
      modifies this
      ensures Valid(store, ops) && v == Fresh(store, d) && vec == Some(v)
      ensures hit <==> old(vec).Some? && old(raw) == Detoast(store, d)
      ensures hit ==> old(vec) == Some(v) && norm2 == old(norm2)
      ensures !hit ==> norm2 == None
    {
      var ident := IdentOf(d);
      if ident.Some? && vec.Some? && toastPtr == ident {
        hit := true;
        return vec.value;
      }
      var bytes := Detoast(store, d);
      hit := vec.Some? && raw == bytes;
      if !hit {
        vec, norm2 := Some(store.decode(bytes)), None;
        raw := bytes;
      }
      toastPtr := ident;
      v := vec.value;
    }

    /** The squared norm of the cached vector, computed at most once per vector. */
    method CachedNorm2(ghost store: Store<E>, ops: Ops<E, F>) returns (n: F)
      requires Valid(store, ops) && vec.Some?
      modifies this`norm2
      ensures Valid(store, ops) && n == Norm2(ops, vec.value) && norm2 == Some(n)
    {
      if norm2.None? {
        norm2 := Some(Norm2(ops, vec.value));
      }
      n := norm2.value;
    }
  }

  /** What the call means with no cache at all. */
  function Expected<E, F>(store: Store<E>, ops: Ops<E, F>, a: Datum, b: Datum): Distance<F> {
    var x, y := Fresh(store, a), Fresh(store, b);
    if |x| != |y| then DimMismatch else Cosine(ops, x, y)
  }

  /** `cosine_distance`: whichever side repeated supplies its cached norm and is passed as the query. */
  method CosineDistance<E(==, !new), F(!new)>(x: Slot<E, F>, y: Slot<E, F>, store: Store<E>, ops: Ops<E, F>, a: Datum,
      b: Datum)
    returns (d: Distance<F>)
    requires x != y && x.Valid(store, ops) && y.Valid(store, ops) && Commutes(ops)
    modifies x, y
    ensures x.Valid(store, ops) && y.Valid(store, ops)
    ensures d == Expected(store, ops, a, b)
  {
    var v := x.Get(store, ops, a);
    var w := y.Get(store, ops, b);
    CosineSymmetric(ops, v, w);
    hide Sum, Terms, Commutes, Dot;
    if y.hit {
      var q := y.CachedNorm2(store, ops);
      d := if |v| != |w| then DimMismatch else CosineWithNorm(ops, v, w, q);
    } else if x.hit {
      var q := x.CachedNorm2(store, ops);
      d := if |v| != |w| then DimMismatch else CosineWithNorm(ops, w, v, q);
    } else {
      d := if |v| != |w| then DimMismatch else Cosine(ops, v, w);
    }
  }

  datatype Call = Call(a: Datum, b: Datum)

  /** Over any sequence of calls the cache changes no answer. */
  method AnswerCalls<E(==, !new), F(!new)>(store: Store<E>, ops: Ops<E, F>, calls: seq<Call>)
    returns (answers: seq<Distance<F>>)
    requires Commutes(ops)
    ensures |answers| == |calls|
    ensures forall i :: 0 <= i < |calls| ==> answers[i] == Expected(store, ops, calls[i].a, calls[i].b)
  {
    var x := new Slot<E, F>();
    var y := new Slot<E, F>();
    answers := [];
    for i := 0 to |calls|
      invariant x.Valid(store, ops) && y.Valid(store, ops) && fresh(x) && fresh(y) && x != y
      invariant |answers| == i && forall j :: 0 <= j < i ==> answers[j] == Expected(store, ops, calls[j].a, calls[j].b)
    {
      var d := CosineDistance(x, y, store, ops, calls[i].a, calls[i].b);
      answers := answers + [d];
    }
  }
}
