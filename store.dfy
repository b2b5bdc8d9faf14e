/**
 * `Store<F>`: the interning tables (a `Heap` value the methods replace) and
 * the two reverse maps from scalar pointers back to pointers, which
 * `hash_expr` and `hash_cont` fill as they go.
 */
module Stores {
  import opened Options
  import opened IndexSets
  import opened Encoding
  import opened Ascii
  import opened Heaps
  import opened Hashing

  /** `ptr` hashes to `s` (with enough fuel). */
  ghost predicate HashesTo(p: Primitives, h: Heap, ptr: Ptr, s: ScalarPtr) {
    exists fuel :: HashExpr(p, h, ptr, fuel) == Some(s)
  }

  /** `k` hashes to `s` (with enough fuel). */
  ghost predicate ContHashesTo(p: Primitives, h: Heap, k: ContPtr, s: ScalarContPtr) {
    exists fuel :: HashCont(p, h, k, fuel) == Some(s)
  }

  /** Every entry of the reverse maps leads back to a pointer that hashes to its key. */
  ghost predicate MapsSound(p: Primitives, h: Heap, m: map<ScalarPtr, Ptr>, mc: map<ScalarContPtr, ContPtr>) {
    && (forall s :: s in m ==> HashesTo(p, h, m[s], s))
    && (forall s :: s in mc ==> ContHashesTo(p, h, mc[s], s))
  }

  /** The well-known symbols as `Store::default` stores them, after case conversion. */
  const DefaultSymbols: seq<string> := [
    "NIL", "T", "QUOTE", "LAMBDA", "_", "LET*", "LETREC*", "CAR", "CDR", "ATOM",
    "+", "-", "*", "/", "=", "EQ", "CURRENT-ENV", "IF", "TERMINAL", "DUMMY",
    "OUTERMOST", "ERROR"
  ]

  /** The tables of a freshly made default store. */
  function DefaultHeap(): (h: Heap)
    ensures h.Wf() && h.HasWellKnown() && h.simple == []
    ensures h.Closed()
  {
    DefaultSymbolsDistinct();
    NoPointersClosed(EmptyHeap().(syms := DefaultSymbols));
    EmptyHeap().(syms := DefaultSymbols)
  }

  /** A name converts to `u` when each of its characters upper-cases to the matching one of `u`. */
  lemma ConvertsTo(w: string, u: string)
    requires |w| == |u| && forall j :: 0 <= j < |w| ==> ToAsciiUpper(w[j]) == u[j]
    ensures ConvertSymCase(w) == u
  {
  }

  /** Converting the case of each well-known symbol gives the stored name. */
  lemma {:induction false} DefaultSymbolsConverted()
    ensures |DefaultSymbols| == |WellKnownSymbols|
    ensures forall i :: 0 <= i < |WellKnownSymbols| ==> ConvertSymCase(WellKnownSymbols[i]) == DefaultSymbols[i]
  {
    forall i | 0 <= i < |WellKnownSymbols|
      ensures ConvertSymCase(WellKnownSymbols[i]) == DefaultSymbols[i]
    {
      ConvertsTo(WellKnownSymbols[i], DefaultSymbols[i]);
    }
  }

  lemma DefaultSymbolsDistinct()
    ensures Distinct(DefaultSymbols)
  {
    forall i, j | 0 <= i < j < |DefaultSymbols|
      ensures DefaultSymbols[i] != DefaultSymbols[j]
    {
      assert DefaultSymbols[i][0] != DefaultSymbols[j][0] || |DefaultSymbols[i]| != |DefaultSymbols[j]|
        || DefaultSymbols[i][1] != DefaultSymbols[j][1];
    }
  }

  /** The constructor's loop: interning the next well-known symbol appends its converted name. */
  lemma DefaultStep(i: nat)
    requires i < |WellKnownSymbols|
    ensures EmptyHeap().(syms := DefaultSymbols[..i]).InternSymWithCaseConversion(WellKnownSymbols[i]).0
      == EmptyHeap().(syms := DefaultSymbols[..i + 1])
  {
    DefaultSymbolsConverted();
    DefaultSymbolsDistinct();
    var h := EmptyHeap().(syms := DefaultSymbols[..i]);
    assert DefaultSymbols[i] !in h.syms;
    assert DefaultSymbols[..i + 1] == h.syms + [DefaultSymbols[i]];
  }

  /** The loop of `Store::default`: `sym` of each well-known symbol in turn, starting from empty tables. */
  method DefaultTables() returns (h: Heap)
    ensures h == DefaultHeap()
  {
    h := EmptyHeap();
    for i := 0 to |WellKnownSymbols|
      invariant h == EmptyHeap().(syms := DefaultSymbols[..i])
    {
      DefaultStep(i);
      h := h.InternSymWithCaseConversion(WellKnownSymbols[i]).0;
    }
    assert DefaultSymbols[..|WellKnownSymbols|] == DefaultSymbols;
  }

  /** Growing the tables keeps the well-known symbols and keeps every reverse-map entry sound. */
  lemma StoreGrows(p: Primitives, h: Heap, h2: Heap, m: map<ScalarPtr, Ptr>, mc: map<ScalarContPtr, ContPtr>)
    requires h.GrowsTo(h2) && h.HasWellKnown() && MapsSound(p, h, m, mc)
    ensures h2.HasWellKnown() && MapsSound(p, h2, m, mc)
  {
    IndexOfPrefix(h.syms, h2.syms, "NIL");
    IndexOfPrefix(h.syms, h2.syms, "T");
    IndexOfPrefix(h.syms, h2.syms, "OUTERMOST");
    IndexOfPrefix(h.syms, h2.syms, "ERROR");
    IndexOfPrefix(h.syms, h2.syms, "TERMINAL");
    IndexOfPrefix(h.syms, h2.syms, "DUMMY");
    forall s | s in m ensures HashesTo(p, h2, m[s], s) {
      var fuel :| HashExpr(p, h, m[s], fuel) == Some(s);
      HashExprStable(p, h, h2, m[s], fuel, fuel);
    }
    forall s | s in mc ensures ContHashesTo(p, h2, mc[s], s) {
      var fuel :| HashCont(p, h, mc[s], fuel) == Some(s);
      HashContStable(p, h, h2, mc[s], fuel, fuel);
    }
  }

  /**
   * Recording a hashed pointer the way `create_scalar_ptr` does (the first
   * writer wins) keeps the reverse map sound, and the entry for the scalar
   * pointer then carries its tag.
   */
  lemma RecordSound(p: Primitives, h: Heap, m: map<ScalarPtr, Ptr>, mc: map<ScalarContPtr, ContPtr>,
                    root: Ptr, s: ScalarPtr, fuel: nat)
    requires MapsSound(p, h, m, mc) && HashExpr(p, h, root, fuel) == Some(s)
    ensures var m2 := if s in m then m else m[s := root];
      MapsSound(p, h, m2, mc) && s.tag == TagValue(m2[s].tag)
  {
    if s in m {
      var f :| HashExpr(p, h, m[s], f) == Some(s);
    }
  }

  /** A nil pointer that hashes hashes like the pointer `get_nil` returns, under which `hash_expr` records it. */
  lemma NilRootHash(p: Primitives, h: Heap, ptr: Ptr, fuel: nat)
    requires HashExpr(p, h, ptr, fuel).Some?
    ensures ptr.tag == Tag.Nil ==> "NIL" in h.syms && HashExpr(p, h, h.GetNil(), fuel) == HashExpr(p, h, ptr, fuel)
  {
    if ptr.tag == Tag.Nil {
      NilHash(p, h, ptr, fuel);
    }
  }

  /** The same for `create_cont_scalar_ptr`. */
  lemma RecordContSound(p: Primitives, h: Heap, m: map<ScalarPtr, Ptr>, mc: map<ScalarContPtr, ContPtr>,
                        k: ContPtr, s: ScalarContPtr, fuel: nat)
    requires MapsSound(p, h, m, mc) && HashCont(p, h, k, fuel) == Some(s)
    ensures var mc2 := if s in mc then mc else mc[s := k];
      MapsSound(p, h, m, mc2) && s.tag == ContTagValue(mc2[s].tag)
  {
    if s in mc {
      var f :| HashCont(p, h, mc[s], f) == Some(s);
    }
  }

  class Store {
    var heap: Heap
    /** `scalar_ptr_map`. */
    var scalarPtrs: map<ScalarPtr, Ptr>
    /** `scalar_ptr_cont_map`. */
    var scalarContPtrs: map<ScalarContPtr, ContPtr>
    /** The Poseidon hashes behind `poseidon_cache`. */
    const prims: Primitives

    /**
     * No table stores anything twice, `simple_store` stays empty (no method
     * writes it), the symbols the getters `expect` are interned, and the
     * reverse maps are sound. `Closed` (every stored pointer in range) is
     * not part of it: the `intern_*` methods accept pointers from anywhere,
     * including another store, so a store is closed only as long as its
     * callers pass it its own pointers; `DefaultHeap` is closed and every
     * intern keeps a closed heap closed when its arguments are in range.
     */
    ghost predicate Valid()
      reads this
    {
      && heap.Wf()
      && heap.simple == []
      && heap.HasWellKnown()
      && MapsSound(prims, heap, scalarPtrs, scalarContPtrs)
    }

    /** `Store::default` (and `Store::new`): intern the well-known symbols through `sym`. */
    constructor (prims: Primitives)
      ensures Valid() && this.prims == prims
      ensures heap == DefaultHeap()
      ensures scalarPtrs == map[] && scalarContPtrs == map[]
    {
      var tables := DefaultTables();
      this.prims := prims;
      heap := tables;
      scalarPtrs := map[];
      scalarContPtrs := map[];
    }

    /** Replace the tables by a grown version that keeps the invariant. */
    method Commit(h: Heap)
      requires Valid() && heap.GrowsTo(h) && h.Wf() && h.simple == []
      modifies this`heap
      ensures Valid() && heap == h
    {
      StoreGrows(prims, heap, h, scalarPtrs, scalarContPtrs);
      heap := h;
    }

    /** `Store::intern_sym`. */
    method InternSym(name: string) returns (p: Ptr)
      requires Valid()
      modifies this`heap
      ensures Valid()
      ensures (heap, p) == old(heap).InternSym(name)
    {
      var r := heap.InternSym(name);
      Commit(r.0);
      p := r.1;
    }

    /** `Store::intern_sym_with_case_conversion`. */
    method InternSymWithCaseConversion(name: string) returns (p: Ptr)
      requires Valid()
      modifies this`heap
      ensures Valid()
      ensures (heap, p) == old(heap).InternSymWithCaseConversion(name)
    {
      p := InternSym(ConvertSymCase(name));
    }

    /** `Store::sym`. */
    method Sym(name: string) returns (p: Ptr)
      requires Valid()
      modifies this`heap
      ensures Valid()
      ensures (heap, p) == old(heap).InternSymWithCaseConversion(name)
    {
      p := InternSymWithCaseConversion(name);
    }

    /** `Store::intern_nil` (and `nil`): `sym("nil")`, already interned in a default store. */
    method InternNil() returns (p: Ptr)
      requires Valid()
      modifies this`heap
      ensures Valid() && heap == old(heap)
      ensures p == heap.GetNil()
    {
      NilSpellings();
      p := Sym("nil");
    }

    /** `Store::t`: `sym("T")`, already interned in a default store. */
    method T() returns (p: Ptr)
      requires Valid()
      modifies this`heap
      ensures Valid() && heap == old(heap)
      ensures p == heap.GetT()
    {
      assert ConvertSymCase("T") == ConvertSymCase("t") == "T";
      p := Sym("T");
    }

    /** `Store::intern_cons` (and `cons`). */
    method InternCons(car: Ptr, cdr: Ptr) returns (p: Ptr)
      requires Valid()
      modifies this`heap
      ensures Valid()
      ensures (heap, p) == old(heap).InternCons(car, cdr)
    {
      var r := heap.InternCons(car, cdr);
      Commit(r.0);
      p := r.1;
    }

    /** `Store::intern_list` (and `list`): fold `cons` over the reversed elements, starting from `sym("nil")`. */
    method InternList(elts: seq<Ptr>) returns (p: Ptr)
      requires Valid()
      modifies this`heap
      ensures Valid()
      ensures (heap, p) == old(heap).InternList(elts)
    {
      ghost var h0 := heap;
      p := Sym("nil");
      var i := |elts|;
      assert elts[i..] == [];
      while i > 0
        invariant 0 <= i <= |elts|
        invariant Valid()
        invariant (heap, p) == h0.InternList(elts[i..])
      {
        i := i - 1;
        InternListSuffix(h0, elts, i);
        p := InternCons(elts[i], p);
      }
      assert elts[0..] == elts;
    }

    /** `Store::intern_num` (and `num`). */
    method InternNum(n: Num) returns (p: Ptr)
      requires Valid()
      modifies this`heap
      ensures Valid()
      ensures (heap, p) == old(heap).InternNum(n)
    {
      var r := heap.InternNum(n);
      Commit(r.0);
      p := r.1;
    }

    /** `Store::intern_str`. */
    method InternStr(name: string) returns (p: Ptr)
      requires Valid()
      modifies this`heap
      ensures Valid()
      ensures (heap, p) == old(heap).InternStr(name)
    {
      var r := heap.InternStr(name);
      Commit(r.0);
      p := r.1;
    }

    /** `Store::intern_fun`: the argument must be a symbol. */
    method InternFun(arg: Ptr, body: Ptr, closedEnv: Ptr) returns (p: Ptr)
      requires Valid() && arg.tag == Tag.Sym
      modifies this`heap
      ensures Valid()
      ensures (heap, p) == old(heap).InternFun(arg, body, closedEnv)
    {
      var r := heap.InternFun(arg, body, closedEnv);
      Commit(r.0);
      p := r.1;
    }

    /** `Store::intern_thunk`. */
    method InternThunk(thunk: Thunk) returns (p: Ptr)
      requires Valid()
      modifies this`heap
      ensures Valid()
      ensures (heap, p) == old(heap).InternThunk(thunk)
    {
      var r := heap.InternThunk(thunk);
      Commit(r.0);
      p := r.1;
    }

    /** `Store::intern_cont_call`. */
    method InternContCall(arg: Ptr, savedEnv: Ptr, cont: ContPtr) returns (k: ContPtr)
      requires Valid()
      modifies this`heap
      ensures Valid()
      ensures (heap, k) == old(heap).InternContCall(arg, savedEnv, cont)
    {
      var r := heap.InternContCall(arg, savedEnv, cont);
      Commit(r.0);
      k := r.1;
    }

    /** `Store::intern_cont_call2`. */
    method InternContCall2(fun: Ptr, savedEnv: Ptr, cont: ContPtr) returns (k: ContPtr)
      requires Valid()
      modifies this`heap
      ensures Valid()
      ensures (heap, k) == old(heap).InternContCall2(fun, savedEnv, cont)
    {
      var r := heap.InternContCall2(fun, savedEnv, cont);
      Commit(r.0);
      k := r.1;
    }

    /** `Store::intern_cont_tail`. */
    method InternContTail(savedEnv: Ptr, cont: ContPtr) returns (k: ContPtr)
      requires Valid()
      modifies this`heap
      ensures Valid()
      ensures (heap, k) == old(heap).InternContTail(savedEnv, cont)
    {
      var r := heap.InternContTail(savedEnv, cont);
      Commit(r.0);
      k := r.1;
    }

    /** `Store::intern_cont_lookup`. */
    method InternContLookup(savedEnv: Ptr, cont: ContPtr) returns (k: ContPtr)
      requires Valid()
      modifies this`heap
      ensures Valid()
      ensures (heap, k) == old(heap).InternContLookup(savedEnv, cont)
    {
      var r := heap.InternContLookup(savedEnv, cont);
      Commit(r.0);
      k := r.1;
    }

    /** `Store::intern_cont_unop`. */
    method InternContUnop(op: Op1, cont: ContPtr) returns (k: ContPtr)
      requires Valid()
      modifies this`heap
      ensures Valid()
      ensures (heap, k) == old(heap).InternContUnop(op, cont)
    {
      var r := heap.InternContUnop(op, cont);
      Commit(r.0);
      k := r.1;
    }

    /** `Store::intern_cont_binop`. */
    method InternContBinop(op: Op2, savedEnv: Ptr, unevaledArgs: Ptr, cont: ContPtr) returns (k: ContPtr)
      requires Valid()
      modifies this`heap
      ensures Valid()
      ensures (heap, k) == old(heap).InternContBinop(op, savedEnv, unevaledArgs, cont)
    {
      var r := heap.InternContBinop(op, savedEnv, unevaledArgs, cont);
      Commit(r.0);
      k := r.1;
    }

    /** `Store::intern_cont_binop2`. */
    method InternContBinop2(op: Op2, arg1: Ptr, cont: ContPtr) returns (k: ContPtr)
      requires Valid()
      modifies this`heap
      ensures Valid()
      ensures (heap, k) == old(heap).InternContBinop2(op, arg1, cont)
    {
      var r := heap.InternContBinop2(op, arg1, cont);
      Commit(r.0);
      k := r.1;
    }

    /** `Store::intern_cont_relop`. */
    method InternContRelop(rel: Rel2, savedEnv: Ptr, unevaledArgs: Ptr, cont: ContPtr) returns (k: ContPtr)
      requires Valid()
      modifies this`heap
      ensures Valid()
      ensures (heap, k) == old(heap).InternContRelop(rel, savedEnv, unevaledArgs, cont)
    {
      var r := heap.InternContRelop(rel, savedEnv, unevaledArgs, cont);
      Commit(r.0);
      k := r.1;
    }

    /** `Store::intern_cont_relop2`. */
    method InternContRelop2(rel: Rel2, arg1: Ptr, cont: ContPtr) returns (k: ContPtr)
      requires Valid()
      modifies this`heap
      ensures Valid()
      ensures (heap, k) == old(heap).InternContRelop2(rel, arg1, cont)
    {
      var r := heap.InternContRelop2(rel, arg1, cont);
      Commit(r.0);
      k := r.1;
    }

    /** `Store::intern_cont_if`. */
    method InternContIf(unevaledArgs: Ptr, cont: ContPtr) returns (k: ContPtr)
      requires Valid()
      modifies this`heap
      ensures Valid()
      ensures (heap, k) == old(heap).InternContIf(unevaledArgs, cont)
    {
      var r := heap.InternContIf(unevaledArgs, cont);
      Commit(r.0);
      k := r.1;
    }

    /** `Store::intern_cont_let_star`. */
    method InternContLetStar(variable: Ptr, body: Ptr, savedEnv: Ptr, cont: ContPtr) returns (k: ContPtr)
      requires Valid()
      modifies this`heap
      ensures Valid()
      ensures (heap, k) == old(heap).InternContLetStar(variable, body, savedEnv, cont)
    {
      var r := heap.InternContLetStar(variable, body, savedEnv, cont);
      Commit(r.0);
      k := r.1;
    }

    /** `Store::intern_cont_let_rec_star`. */
    method InternContLetRecStar(variable: Ptr, body: Ptr, savedEnv: Ptr, cont: ContPtr) returns (k: ContPtr)
      requires Valid()
      modifies this`heap
      ensures Valid()
      ensures (heap, k) == old(heap).InternContLetRecStar(variable, body, savedEnv, cont)
    {
      var r := heap.InternContLetRecStar(variable, body, savedEnv, cont);
      Commit(r.0);
      k := r.1;
    }

    /**
     * `Store::create_scalar_ptr`: the scalar pointer is the pointer's tag as a
     * field element and the hash; the reverse map keeps the first pointer
     * recorded for it (`or_insert`).
     */
    method CreateScalarPtr(ptr: Ptr, hash: Fe) returns (s: ScalarPtr)
      modifies this`scalarPtrs
      ensures s == ScalarPtr(TagValue(ptr.tag), hash)
      ensures scalarPtrs == if s in old(scalarPtrs) then old(scalarPtrs) else old(scalarPtrs)[s := ptr]
    {
      s := ScalarPtr(TagValue(ptr.tag), hash);
      if s !in scalarPtrs {
        scalarPtrs := scalarPtrs[s := ptr];
      }
    }

    /** `Store::create_cont_scalar_ptr`. */
    method CreateContScalarPtr(k: ContPtr, hash: Fe) returns (s: ScalarContPtr)
      modifies this`scalarContPtrs
      ensures s == ScalarContPtr(ContTagValue(k.tag), hash)
      ensures scalarContPtrs == if s in old(scalarContPtrs) then old(scalarContPtrs) else old(scalarContPtrs)[s := k]
    {
      s := ScalarContPtr(ContTagValue(k.tag), hash);
      if s !in scalarContPtrs {
        scalarContPtrs := scalarContPtrs[s := k];
      }
    }

    /**
     * `Store::hash_expr`: the scalar pointer, recorded in the reverse map
     * under the pointer (for nil, under the pointer `get_nil` returns).
     */
    method HashExpr(ptr: Ptr, fuel: nat) returns (r: Option<ScalarPtr>)
      requires Valid()
      modifies this`scalarPtrs
      ensures Valid()
      ensures r == Hashing.HashExpr(prims, heap, ptr, fuel)
      ensures r.Some? ==> r.value in scalarPtrs && r.value.tag == TagValue(scalarPtrs[r.value].tag)
      ensures old(scalarPtrs).Keys <= scalarPtrs.Keys
      ensures forall s :: s in old(scalarPtrs) ==> scalarPtrs[s] == old(scalarPtrs)[s]
    {
      r := Hashing.HashExpr(prims, heap, ptr, fuel);
      if r.Some? {
        NilRootHash(prims, heap, ptr, fuel);
        var root := if ptr.tag == Tag.Nil then heap.GetNil() else ptr;
        RecordSound(prims, heap, scalarPtrs, scalarContPtrs, root, r.value, fuel);
        var s := CreateScalarPtr(root, r.value.value);
      }
    }

    /** `Store::hash_cont`: the scalar pointer, recorded in the reverse map under the pointer. */
    method HashCont(k: ContPtr, fuel: nat) returns (r: Option<ScalarContPtr>)
      requires Valid()
      modifies this`scalarContPtrs
      ensures Valid()
      ensures r == Hashing.HashCont(prims, heap, k, fuel)
      ensures r.Some? ==> r.value in scalarContPtrs && r.value.tag == ContTagValue(scalarContPtrs[r.value].tag)
      ensures old(scalarContPtrs).Keys <= scalarContPtrs.Keys
      ensures forall s :: s in old(scalarContPtrs) ==> scalarContPtrs[s] == old(scalarContPtrs)[s]
    {
      r := Hashing.HashCont(prims, heap, k, fuel);
      if r.Some? {
        RecordContSound(prims, heap, scalarPtrs, scalarContPtrs, k, r.value, fuel);
        var s := CreateContScalarPtr(k, r.value.value);
      }
    }

    /** `Store::fetch_scalar`: the pointer recorded for a scalar pointer. */
    function FetchScalar(s: ScalarPtr): (r: Option<Ptr>)
      reads this
      ensures r.Some? <==> s in scalarPtrs
    {
      if s in scalarPtrs then Some(scalarPtrs[s]) else None
    }

    /** `Store::fetch_scalar_cont`. */
    function FetchScalarCont(s: ScalarContPtr): (r: Option<ContPtr>)
      reads this
      ensures r.Some? <==> s in scalarContPtrs
    {
      if s in scalarContPtrs then Some(scalarContPtrs[s]) else None
    }

    /** `Store::scalar_from_parts`: the scalar pointer with these parts, if one was recorded. */
    function ScalarFromParts(tag: Fe, value: Fe): (r: Option<ScalarPtr>)
      reads this
      ensures r.Some? <==> FetchScalar(ScalarPtr(tag, value)).Some?
      ensures r.Some? ==> r.value.tag == tag && r.value.value == value
    {
      var s := ScalarPtr(tag, value);
      if s in scalarPtrs then Some(s) else None
    }

    /** `Store::scalar_from_parts_cont`. */
    function ScalarFromPartsCont(tag: Fe, value: Fe): (r: Option<ScalarContPtr>)
      reads this
      ensures r.Some? <==> FetchScalarCont(ScalarContPtr(tag, value)).Some?
      ensures r.Some? ==> r.value.tag == tag && r.value.value == value
    {
      var s := ScalarContPtr(tag, value);
      if s in scalarContPtrs then Some(s) else None
    }

    /**
     * A reverse lookup in a valid store gives a pointer that hashes back to
     * the scalar pointer looked up, so its tag field is the pointer's tag.
     */
    lemma FetchScalarSound(s: ScalarPtr)
      requires Valid() && FetchScalar(s).Some?
      ensures HashesTo(prims, heap, FetchScalar(s).value, s)
      ensures s.tag == TagValue(FetchScalar(s).value.tag)
    {
      var fuel :| Hashing.HashExpr(prims, heap, scalarPtrs[s], fuel) == Some(s);
    }

    lemma FetchScalarContSound(s: ScalarContPtr)
      requires Valid() && FetchScalarCont(s).Some?
      ensures ContHashesTo(prims, heap, FetchScalarCont(s).value, s)
      ensures s.tag == ContTagValue(FetchScalarCont(s).value.tag)
    {
      var fuel :| Hashing.HashCont(prims, heap, scalarContPtrs[s], fuel) == Some(s);
    }
  }
}
