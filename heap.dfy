/**
 * The contents of Lurk's `Store`: one append-only interning table per kind of
 * expression and continuation. A typed pointer `(tag, index)` points into the
 * table of its tag. `Heap` is the value of all the tables at one moment; its
 * member functions are the store's read side (`fetch`, `fetch_cont`,
 * `car_cdr`, `get_sym`, ...) and the effect of each `intern_*` operation.
 */
module Heaps {
  import opened Options
  import opened IndexSets
  import opened Encoding
  import opened Ascii

  /** `Ptr<F>`: an expression tag and a raw index into that tag's table. */
  datatype Ptr = Ptr(tag: Tag, idx: nat) {
    /** `Ptr::is_nil`. */
    predicate IsNil()
      ensures IsNil() <==> tag == ExprTag(Expression.Nil)
    {
      tag == Tag.Nil
    }
  }

  /** `ContPtr<F>`: a continuation tag and a raw index into that tag's table. */
  datatype ContPtr = ContPtr(tag: ContTag, idx: nat) {
    /** `ContPtr::is_error`. */
    predicate IsError()
      ensures IsError() <==> tag == ContTagOf(Continuation.Error)
    {
      tag == ContTag.Error
    }
  }

  /** `crate::Num<F>`, whose definition is not part of this model: an opaque number. */
  datatype Num = NumValue(value: int)

  /** `Thunk<F>`: a value together with the continuation that receives it. */
  datatype Thunk = MkThunk(value: Ptr, continuation: ContPtr)

  /** `Expression`: what an expression pointer dereferences to. */
  datatype Expression =
    | Nil
    | Cons(car: Ptr, cdr: Ptr)
    | Sym(name: string)
    | Fun(arg: Ptr, body: Ptr, closedEnv: Ptr)
    | Num(num: Num)
    | Str(str: string)
    | Thunk(thunk: Thunk)

  /** `Continuation`: what a continuation pointer dereferences to. */
  datatype Continuation =
    | Outermost
    | Simple(cont: ContPtr)
    | Call(arg: Ptr, savedEnv: Ptr, cont: ContPtr)
    | Call2(fun: Ptr, savedEnv: Ptr, cont: ContPtr)
    | Tail(savedEnv: Ptr, cont: ContPtr)
    | Error
    | Lookup(savedEnv: Ptr, cont: ContPtr)
    | Unop(op1: Op1, cont: ContPtr)
    | Binop(op2: Op2, savedEnv: Ptr, unevaledArgs: Ptr, cont: ContPtr)
    | Binop2(op2: Op2, arg1: Ptr, cont: ContPtr)
    | Relop(rel2: Rel2, savedEnv: Ptr, unevaledArgs: Ptr, cont: ContPtr)
    | Relop2(rel2: Rel2, arg1: Ptr, cont: ContPtr)
    | If(unevaledArgs: Ptr, cont: ContPtr)
    | LetStar(variable: Ptr, body: Ptr, savedEnv: Ptr, cont: ContPtr)
    | LetRecStar(variable: Ptr, body: Ptr, savedEnv: Ptr, cont: ContPtr)
    | Dummy
    | Terminal

  /** The tag a pointer to this expression carries. */
  function ExprTag(e: Expression): Tag {
    match e
    case Nil => Tag.Nil
    case Cons(_, _) => Tag.Cons
    case Sym(_) => Tag.Sym
    case Fun(_, _, _) => Tag.Fun
    case Num(_) => Tag.Num
    case Str(_) => Tag.Str
    case Thunk(_) => Tag.Thunk
  }

  /** The tag a pointer to this continuation carries. */
  function ContTagOf(k: Continuation): ContTag {
    match k
    case Outermost => ContTag.Outermost
    case Simple(_) => ContTag.Simple
    case Call(_, _, _) => ContTag.Call
    case Call2(_, _, _) => ContTag.Call2
    case Tail(_, _) => ContTag.Tail
    case Error => ContTag.Error
    case Lookup(_, _) => ContTag.Lookup
    case Unop(_, _) => ContTag.Unop
    case Binop(_, _, _, _) => ContTag.Binop
    case Binop2(_, _, _) => ContTag.Binop2
    case Relop(_, _, _, _) => ContTag.Relop
    case Relop2(_, _, _) => ContTag.Relop2
    case If(_, _) => ContTag.If
    case LetStar(_, _, _, _) => ContTag.LetStar
    case LetRecStar(_, _, _, _) => ContTag.LetRecStar
    case Dummy => ContTag.Dummy
    case Terminal => ContTag.Terminal
  }

  /** Continuations that have no table: their pointers dereference without a lookup. */
  predicate IsConstantCont(t: ContTag) {
    t == ContTag.Outermost || t == ContTag.Error || t == ContTag.Dummy || t == ContTag.Terminal
  }

  /** The symbols `Store::default` interns (through `sym`, so upper-cased). */
  const WellKnownSymbols: seq<string> := [
    "nil", "t", "quote", "lambda", "_", "let*", "letrec*", "car", "cdr", "atom",
    "+", "-", "*", "/", "=", "eq", "current-env", "if", "terminal", "dummy",
    "outermost", "error"
  ]

  datatype Heap = Heap(
    cons: seq<(Ptr, Ptr)>,
    syms: seq<string>,
    nums: seq<Num>,
    funs: seq<(Ptr, Ptr, Ptr)>,
    strs: seq<string>,
    thunks: seq<Thunk>,
    simple: seq<ContPtr>,
    call: seq<(Ptr, Ptr, ContPtr)>,
    call2: seq<(Ptr, Ptr, ContPtr)>,
    tail: seq<(Ptr, ContPtr)>,
    lookup: seq<(Ptr, ContPtr)>,
    unop: seq<(Op1, ContPtr)>,
    binop: seq<(Op2, Ptr, Ptr, ContPtr)>,
    binop2: seq<(Op2, Ptr, ContPtr)>,
    relop: seq<(Rel2, Ptr, Ptr, ContPtr)>,
    relop2: seq<(Rel2, Ptr, ContPtr)>,
    ifs: seq<(Ptr, ContPtr)>,
    letStar: seq<(Ptr, Ptr, Ptr, ContPtr)>,
    letRecStar: seq<(Ptr, Ptr, Ptr, ContPtr)>)
  {
    /** Every table is an `IndexSet`: no content is stored twice. */
    predicate Wf() {
      && Distinct(cons) && Distinct(syms) && Distinct(nums) && Distinct(funs)
      && Distinct(strs) && Distinct(thunks) && Distinct(simple) && Distinct(call)
      && Distinct(call2) && Distinct(tail) && Distinct(lookup) && Distinct(unop)
      && Distinct(binop) && Distinct(binop2) && Distinct(relop) && Distinct(relop2)
      && Distinct(ifs) && Distinct(letStar) && Distinct(letRecStar)
    }

    /** Every table of `this` is a prefix of the same table of `h`: the store only grows. */
    predicate GrowsTo(h: Heap) {
      && cons <= h.cons && syms <= h.syms && nums <= h.nums && funs <= h.funs
      && strs <= h.strs && thunks <= h.thunks && simple <= h.simple && call <= h.call
      && call2 <= h.call2 && tail <= h.tail && lookup <= h.lookup && unop <= h.unop
      && binop <= h.binop && binop2 <= h.binop2 && relop <= h.relop && relop2 <= h.relop2
      && ifs <= h.ifs && letStar <= h.letStar && letRecStar <= h.letRecStar
    }

    /** The symbols the store's getters `expect` to find. */
    predicate HasWellKnown() {
      && "NIL" in syms && "T" in syms && "OUTERMOST" in syms
      && "ERROR" in syms && "TERMINAL" in syms && "DUMMY" in syms
    }

    /** Number of entries in the table of an expression tag (`Nil` has none). */
    function ExprCount(t: Tag): nat {
      match t
      case Nil => 0
      case Cons => |cons|
      case Sym => |syms|
      case Fun => |funs|
      case Num => |nums|
      case Thunk => |thunks|
      case Str => |strs|
    }

    /** Number of entries in the table of a continuation tag (constant continuations have none). */
    function ContCount(t: ContTag): nat {
      match t
      case Outermost => 0
      case Simple => |simple|
      case Call => |call|
      case Call2 => |call2|
      case Tail => |tail|
      case Error => 0
      case Lookup => |lookup|
      case Unop => |unop|
      case Binop => |binop|
      case Binop2 => |binop2|
      case Relop => |relop|
      case Relop2 => |relop2|
      case If => |ifs|
      case LetStar => |letStar|
      case LetRecStar => |letRecStar|
      case Dummy => 0
      case Terminal => 0
    }

    /** The pointer's index is in range for its table. */
    predicate Live(p: Ptr) {
      p.tag == Tag.Nil || p.idx < ExprCount(p.tag)
    }

    predicate LiveCont(k: ContPtr) {
      IsConstantCont(k.tag) || k.idx < ContCount(k.tag)
    }

    /** `Store::fetch`: the expression a pointer refers to, if its index is in range. */
    function Fetch(p: Ptr): (r: Option<Expression>)
      ensures r.Some? <==> Live(p)
      ensures r.Some? ==> ExprTag(r.value) == p.tag
    {
      match p.tag
      case Nil => Some(Expression.Nil)
      case Cons =>
        if p.idx < |cons| then Some(Expression.Cons(cons[p.idx].0, cons[p.idx].1)) else None
      case Sym =>
        if p.idx < |syms| then Some(Expression.Sym(syms[p.idx])) else None
      case Num =>
        if p.idx < |nums| then Some(Expression.Num(nums[p.idx])) else None
      case Fun =>
        if p.idx < |funs| then Some(Expression.Fun(funs[p.idx].0, funs[p.idx].1, funs[p.idx].2)) else None
      case Thunk =>
        if p.idx < |thunks| then Some(Expression.Thunk(thunks[p.idx])) else None
      case Str =>
        if p.idx < |strs| then Some(Expression.Str(strs[p.idx])) else None
    }

    /** `Store::fetch_cont`: the continuation a pointer refers to, if its index is in range. */
    function FetchCont(k: ContPtr): (r: Option<Continuation>)
      ensures r.Some? <==> LiveCont(k)
      ensures r.Some? ==> ContTagOf(r.value) == k.tag
    {
      match k.tag
      case Outermost => Some(Continuation.Outermost)
      case Error => Some(Continuation.Error)
      case Dummy => Some(Continuation.Dummy)
      case Terminal => Some(Continuation.Terminal)
      case _ => if k.idx < ContCount(k.tag) then Some(StoredCont(k.tag, k.idx)) else None
    }

    /** The entry at index `i` of the table of a continuation tag that has one. */
    function StoredCont(t: ContTag, i: nat): (c: Continuation)
      requires !IsConstantCont(t) && i < ContCount(t)
      ensures ContTagOf(c) == t
    {
      match t
      case Simple => Continuation.Simple(simple[i])
      case Call => Continuation.Call(call[i].0, call[i].1, call[i].2)
      case Call2 => Continuation.Call2(call2[i].0, call2[i].1, call2[i].2)
      case Tail => Continuation.Tail(tail[i].0, tail[i].1)
      case Lookup => Continuation.Lookup(lookup[i].0, lookup[i].1)
      case Unop => Continuation.Unop(unop[i].0, unop[i].1)
      case Binop => Continuation.Binop(binop[i].0, binop[i].1, binop[i].2, binop[i].3)
      case Binop2 => Continuation.Binop2(binop2[i].0, binop2[i].1, binop2[i].2)
      case Relop => Continuation.Relop(relop[i].0, relop[i].1, relop[i].2, relop[i].3)
      case Relop2 => Continuation.Relop2(relop2[i].0, relop2[i].1, relop2[i].2)
      case If => Continuation.If(ifs[i].0, ifs[i].1)
      case LetStar => Continuation.LetStar(letStar[i].0, letStar[i].1, letStar[i].2, letStar[i].3)
      case LetRecStar => Continuation.LetRecStar(letRecStar[i].0, letRecStar[i].1, letRecStar[i].2, letRecStar[i].3)
    }

    /** Every pointer stored inside an expression is in range. */
    predicate ChildrenLive(e: Expression) {
      match e
      case Cons(a, b) => Live(a) && Live(b)
      case Fun(a, b, c) => Live(a) && Live(b) && Live(c)
      case Thunk(t) => Live(t.value) && LiveCont(t.continuation)
      case _ => true
    }

    /** Every pointer stored inside a continuation is in range. */
    predicate ContChildrenLive(k: Continuation) {
      match k
      case Simple(c) => LiveCont(c)
      case Call(a, b, c) => Live(a) && Live(b) && LiveCont(c)
      case Call2(a, b, c) => Live(a) && Live(b) && LiveCont(c)
      case Tail(a, c) => Live(a) && LiveCont(c)
      case Lookup(a, c) => Live(a) && LiveCont(c)
      case Unop(_, c) => LiveCont(c)
      case Binop(_, a, b, c) => Live(a) && Live(b) && LiveCont(c)
      case Binop2(_, a, c) => Live(a) && LiveCont(c)
      case Relop(_, a, b, c) => Live(a) && Live(b) && LiveCont(c)
      case Relop2(_, a, c) => Live(a) && LiveCont(c)
      case If(a, c) => Live(a) && LiveCont(c)
      case LetStar(a, b, c, d) => Live(a) && Live(b) && Live(c) && LiveCont(d)
      case LetRecStar(a, b, c, d) => Live(a) && Live(b) && Live(c) && LiveCont(d)
      case _ => true
    }

    /** Every pointer stored anywhere in the store is in range for its table. */
    ghost predicate Closed() {
      && (forall p :: Live(p) ==> ChildrenLive(Fetch(p).value))
      && (forall k :: LiveCont(k) ==> ContChildrenLive(FetchCont(k).value))
    }

    /** `h` has the same expression tables as `this`. */
    predicate SameExprTables(h: Heap) {
      && h.cons == cons && h.syms == syms && h.nums == nums && h.funs == funs
      && h.strs == strs && h.thunks == thunks
    }

    /** `h` has the same continuation tables as `this`. */
    predicate SameContTables(h: Heap) {
      && h.simple == simple && h.call == call && h.call2 == call2 && h.tail == tail
      && h.lookup == lookup && h.unop == unop && h.binop == binop && h.binop2 == binop2
      && h.relop == relop && h.relop2 == relop2 && h.ifs == ifs && h.letStar == letStar
      && h.letRecStar == letRecStar
    }

    /**
     * Going from `this` to `h` adds at most one entry, in the table of `e`'s
     * tag, and that entry is `e`.
     */
    ghost predicate AddsOnlyExpr(h: Heap, e: Expression) {
      var t := ExprTag(e);
      && GrowsTo(h)
      && SameContTables(h)
      && (forall u :: u != t ==> h.ExprCount(u) == ExprCount(u))
      && h.ExprCount(t) <= ExprCount(t) + 1
      && (ExprCount(t) < h.ExprCount(t) ==> h.Fetch(Ptr(t, ExprCount(t))) == Some(e))
    }

    /**
     * Going from `this` to `h` adds at most one entry, in the table of `c`'s
     * tag, and that entry is `c`.
     */
    ghost predicate AddsOnlyCont(h: Heap, c: Continuation) {
      var t := ContTagOf(c);
      && GrowsTo(h)
      && SameExprTables(h)
      && (forall u :: u != t ==> h.ContCount(u) == ContCount(u))
      && h.ContCount(t) <= ContCount(t) + 1
      && (ContCount(t) < h.ContCount(t) ==> h.FetchCont(ContPtr(t, ContCount(t))) == Some(c))
    }

    /**
     * What interning `e` into `this` and getting `h` and `p` back guarantees:
     * `p` fetches `e` (the round trip), the tables only grew, no content is
     * stored twice, a closed store stays closed when `e`'s own pointers are in
     * range, and `p` is the only pointer to `e` (hash-consing).
     */
    ghost predicate Interned(h: Heap, p: Ptr, e: Expression) {
      && h.Fetch(p) == Some(e)
      && GrowsTo(h)
      && (Wf() ==> h.Wf())
      && (Closed() && ChildrenLive(e) ==> h.Closed())
      && (h.Wf() && e != Expression.Nil ==> forall q :: h.Fetch(q) == Some(e) ==> q == p)
    }

    /** The same guarantees for interning a continuation. */
    ghost predicate ContInterned(h: Heap, k: ContPtr, c: Continuation) {
      && h.FetchCont(k) == Some(c)
      && GrowsTo(h)
      && (Wf() ==> h.Wf())
      && (Closed() && ContChildrenLive(c) ==> h.Closed())
      && (h.Wf() && !IsConstantCont(ContTagOf(c)) ==> forall q :: h.FetchCont(q) == Some(c) ==> q == k)
    }

    /** `Store::intern_cons`. */
    function InternCons(car: Ptr, cdr: Ptr): (r: (Heap, Ptr))
      ensures Interned(r.0, r.1, Expression.Cons(car, cdr))
      ensures r.0 == this <==> (car, cdr) in cons
      ensures r.0 == this.(cons := r.0.cons)
    {
      var (t, i) := InsertFull(cons, (car, cdr));
      var h := this.(cons := t);
      AddsToCons(this, t, (car, cdr));
      var p := Ptr(Tag.Cons, i);
      InternedByAdding(this, h, p, Expression.Cons(car, cdr));
      (h, p)
    }

    /** `Store::intern_num`. */
    function InternNum(n: Num): (r: (Heap, Ptr))
      ensures Interned(r.0, r.1, Expression.Num(n))
      ensures r.0 == this <==> n in nums
      ensures r.0 == this.(nums := r.0.nums)
    {
      var (t, i) := InsertFull(nums, n);
      var h := this.(nums := t);
      AddsToNums(this, t, n);
      var p := Ptr(Tag.Num, i);
      InternedByAdding(this, h, p, Expression.Num(n));
      (h, p)
    }

    /** `Store::intern_fun`; the argument must be a symbol (the source asserts it). */
    function InternFun(arg: Ptr, body: Ptr, closedEnv: Ptr): (r: (Heap, Ptr))
      requires arg.tag == Tag.Sym
      ensures Interned(r.0, r.1, Expression.Fun(arg, body, closedEnv))
      ensures r.0 == this <==> (arg, body, closedEnv) in funs
      ensures r.0 == this.(funs := r.0.funs)
    {
      var (t, i) := InsertFull(funs, (arg, body, closedEnv));
      var h := this.(funs := t);
      AddsToFuns(this, t, (arg, body, closedEnv));
      var p := Ptr(Tag.Fun, i);
      InternedByAdding(this, h, p, Expression.Fun(arg, body, closedEnv));
      (h, p)
    }

    /** `Store::intern_thunk`. */
    function InternThunk(thunk: Thunk): (r: (Heap, Ptr))
      ensures Interned(r.0, r.1, Expression.Thunk(thunk))
      ensures r.0 == this <==> thunk in thunks
      ensures r.0 == this.(thunks := r.0.thunks)
    {
      var (t, i) := InsertFull(thunks, thunk);
      var h := this.(thunks := t);
      AddsToThunks(this, t, thunk);
      var p := Ptr(Tag.Thunk, i);
      InternedByAdding(this, h, p, Expression.Thunk(thunk));
      (h, p)
    }

    /** `Store::intern_str`: strings are interned as given, without case conversion. */
    function InternStr(name: string): (r: (Heap, Ptr))
      ensures Interned(r.0, r.1, Expression.Str(name))
      ensures r.0 == this <==> name in strs
      ensures r.0 == this.(strs := r.0.strs)
    {
      var (t, i) := InsertFull(strs, name);
      var h := this.(strs := t);
      AddsToStrs(this, t, name);
      var p := Ptr(Tag.Str, i);
      InternedByAdding(this, h, p, Expression.Str(name));
      (h, p)
    }

    /**
     * `Store::intern_sym`: the name is interned as given; exactly the name
     * `"NIL"` is tagged `Nil`, every other name `Sym`.
     */
    function InternSym(name: string): (r: (Heap, Ptr))
      ensures Interned(r.0, r.1, if name == "NIL" then Expression.Nil else Expression.Sym(name))
      ensures r.1.tag == (if name == "NIL" then Tag.Nil else Tag.Sym)
      ensures r.1.idx < |r.0.syms| && r.0.syms[r.1.idx] == name
      ensures r.0 == this <==> name in syms
      ensures r.0 == this.(syms := r.0.syms)
    {
      var (t, i) := InsertFull(syms, name);
      var h := this.(syms := t);
      AddsToSyms(this, t, name);
      InternedByAdding(this, h, Ptr(Tag.Sym, i), Expression.Sym(name));
      SymInterned(this, h, i, name);
      (h, Ptr(if name == "NIL" then Tag.Nil else Tag.Sym, i))
    }

    /** `Store::sym` (`intern_sym_with_case_conversion`): upper-case ASCII, then `intern_sym`. */
    function InternSymWithCaseConversion(name: string): (r: (Heap, Ptr))
      ensures var n := ConvertSymCase(name);
        && Interned(r.0, r.1, if n == "NIL" then Expression.Nil else Expression.Sym(n))
        && (r.0 == this <==> n in syms)
    {
      InternSym(ConvertSymCase(name))
    }

    /**
     * `Store::get_sym`: the pointer `intern_sym` would return for the
     * (optionally case-converted) name, if the name is already interned.
     */
    function GetSym(name: string, convertCase: bool): (r: Option<Ptr>)
      ensures var n := if convertCase then ConvertSymCase(name) else name;
        && (r.Some? <==> n in syms)
        && (r.Some? ==> InternSym(n) == (this, r.value))
    {
      var n := if convertCase then ConvertSymCase(name) else name;
      var tag := if n == "NIL" then Tag.Nil else Tag.Sym;
      match IndexOf(syms, n)
      case Some(i) => Some(Ptr(tag, i))
      case None => None
    }

    /** `Store::get_str`: the pointer `intern_str` would return, if the string is already interned. */
    function GetStr(name: string): (r: Option<Ptr>)
      ensures r.Some? <==> name in strs
      ensures r.Some? ==> InternStr(name) == (this, r.value)
    {
      match IndexOf(strs, name)
      case Some(i) => Some(Ptr(Tag.Str, i))
      case None => None
    }

    /** `Store::get_nil`: the pointer to `"NIL"`, which the default store interns. */
    function GetNil(): (r: Ptr)
      requires "NIL" in syms
      ensures GetSym("nil", true) == Some(r)
      ensures r.tag == Tag.Nil && r.idx < |syms| && syms[r.idx] == "NIL"
    {
      NilSpellings();
      GetSym("nil", true).value
    }

    /** `Store::get_t`: the pointer to the symbol `"T"`, which the default store interns. */
    function GetT(): (r: Ptr)
      requires "T" in syms
      ensures GetSym("t", true) == Some(r)
      ensures Fetch(r) == Some(Expression.Sym("T"))
    {
      assert ConvertSymCase("t") == "T";
      GetSym("t", true).value
    }

    /** `Store::get_cont_outermost`: indexed by the position of the symbol `"OUTERMOST"`. */
    function GetContOutermost(): (k: ContPtr)
      requires "OUTERMOST" in syms
      ensures k.tag == ContTag.Outermost && k.idx < |syms| && syms[k.idx] == "OUTERMOST"
      ensures FetchCont(k) == Some(Continuation.Outermost)
    {
      ContPtr(ContTag.Outermost, IndexOf(syms, "OUTERMOST").value)
    }

    /** `Store::get_cont_error`: indexed by the position of the symbol `"ERROR"`. */
    function GetContError(): (k: ContPtr)
      requires "ERROR" in syms
      ensures k.tag == ContTag.Error && k.idx < |syms| && syms[k.idx] == "ERROR"
      ensures FetchCont(k) == Some(Continuation.Error)
    {
      ContPtr(ContTag.Error, IndexOf(syms, "ERROR").value)
    }

    /** `Store::get_cont_terminal`: indexed by the position of the symbol `"TERMINAL"`. */
    function GetContTerminal(): (k: ContPtr)
      requires "TERMINAL" in syms
      ensures k.tag == ContTag.Terminal && k.idx < |syms| && syms[k.idx] == "TERMINAL"
      ensures FetchCont(k) == Some(Continuation.Terminal)
    {
      ContPtr(ContTag.Terminal, IndexOf(syms, "TERMINAL").value)
    }

    /** `Store::get_cont_dummy`: indexed by the position of the symbol `"DUMMY"`. */
    function GetContDummy(): (k: ContPtr)
      requires "DUMMY" in syms
      ensures k.tag == ContTag.Dummy && k.idx < |syms| && syms[k.idx] == "DUMMY"
      ensures FetchCont(k) == Some(Continuation.Dummy)
    {
      ContPtr(ContTag.Dummy, IndexOf(syms, "DUMMY").value)
    }

    /**
     * `Store::car_cdr`: nil gives `(nil, nil)`, a cons its stored pair. Any
     * other tag panics, and so does a cons whose index is out of range.
     */
    function CarCdr(p: Ptr): (r: (Ptr, Ptr))
      requires p.tag == Tag.Nil ==> "NIL" in syms
      requires p.tag == Tag.Nil || (p.tag == Tag.Cons && p.idx < |cons|)
      ensures p.tag == Tag.Nil ==> r.0 == GetNil() && r.1 == GetNil()
      ensures p.tag == Tag.Cons ==> Fetch(p) == Some(Expression.Cons(r.0, r.1))
    {
      if p.tag == Tag.Nil then (GetNil(), GetNil())
      else
        var e := Fetch(p).value;
        (e.car, e.cdr)
    }

    /** `Store::car`. */
    function Car(p: Ptr): (r: Ptr)
      requires p.tag == Tag.Nil ==> "NIL" in syms
      requires p.tag == Tag.Nil || (p.tag == Tag.Cons && p.idx < |cons|)
      ensures p.tag == Tag.Nil ==> r == GetNil()
      ensures p.tag == Tag.Cons ==> Fetch(p).Some? && Fetch(p).value.car == r
    {
      CarCdr(p).0
    }

    /** `Store::cdr`. */
    function Cdr(p: Ptr): (r: Ptr)
      requires p.tag == Tag.Nil ==> "NIL" in syms
      requires p.tag == Tag.Nil || (p.tag == Tag.Cons && p.idx < |cons|)
      ensures p.tag == Tag.Nil ==> r == GetNil()
      ensures p.tag == Tag.Cons ==> Fetch(p).Some? && Fetch(p).value.cdr == r
    {
      CarCdr(p).1
    }

    /** `p` is the list `elts`: a chain of conses through the cdrs, ending in nil. */
    ghost predicate IsList(p: Ptr, elts: seq<Ptr>)
      decreases |elts|
    {
      if elts == [] then "NIL" in syms && p == GetNil()
      else
        && p.tag == Tag.Cons && p.idx < |cons|
        && cons[p.idx].0 == elts[0]
        && IsList(cons[p.idx].1, elts[1..])
    }

    /**
     * `Store::intern_list`: a right fold of `intern_cons` over the elements,
     * starting from nil. The empty list is nil.
     */
    function InternList(elts: seq<Ptr>): (r: (Heap, Ptr))
      ensures GrowsTo(r.0)
      ensures r.0.IsList(r.1, elts)
      ensures Wf() ==> r.0.Wf()
      decreases |elts|
    {
      if elts == [] then
        NilSpellings();
        InternSymWithCaseConversion("nil")
      else
        var (h1, rest) := InternList(elts[1..]);
        var (h2, p) := h1.InternCons(elts[0], rest);
        ListGrows(h1, h2, rest, elts[1..]);
        (h2, p)
    }

    /** `Store::intern_cont_call`: the unevaluated argument, the saved env and the continuation. */
    function InternContCall(arg: Ptr, savedEnv: Ptr, cont: ContPtr): (r: (Heap, ContPtr))
      ensures ContInterned(r.0, r.1, Continuation.Call(arg, savedEnv, cont))
      ensures r.0 == this <==> (arg, savedEnv, cont) in call
      ensures r.0 == this.(call := r.0.call)
    {
      var (t, i) := InsertFull(call, (arg, savedEnv, cont));
      var h := this.(call := t);
      AddsToContCalls(this, t, (arg, savedEnv, cont));
      var k := ContPtr(ContTag.Call, i);
      ContInternedByAdding(this, h, k, Continuation.Call(arg, savedEnv, cont));
      (h, k)
    }

    /** `Store::intern_cont_call2`: the function, the saved env and the continuation. */
    function InternContCall2(fun: Ptr, savedEnv: Ptr, cont: ContPtr): (r: (Heap, ContPtr))
      ensures ContInterned(r.0, r.1, Continuation.Call2(fun, savedEnv, cont))
      ensures r.0 == this <==> (fun, savedEnv, cont) in call2
      ensures r.0 == this.(call2 := r.0.call2)
    {
      var (t, i) := InsertFull(call2, (fun, savedEnv, cont));
      var h := this.(call2 := t);
      AddsToContCall2s(this, t, (fun, savedEnv, cont));
      var k := ContPtr(ContTag.Call2, i);
      ContInternedByAdding(this, h, k, Continuation.Call2(fun, savedEnv, cont));
      (h, k)
    }

    /** `Store::intern_cont_tail`. */
    function InternContTail(savedEnv: Ptr, cont: ContPtr): (r: (Heap, ContPtr))
      ensures ContInterned(r.0, r.1, Continuation.Tail(savedEnv, cont))
      ensures r.0 == this <==> (savedEnv, cont) in tail
      ensures r.0 == this.(tail := r.0.tail)
    {
      var (t, i) := InsertFull(tail, (savedEnv, cont));
      var h := this.(tail := t);
      AddsToContTails(this, t, (savedEnv, cont));
      var k := ContPtr(ContTag.Tail, i);
      ContInternedByAdding(this, h, k, Continuation.Tail(savedEnv, cont));
      (h, k)
    }

    /** `Store::intern_cont_lookup`. */
    function InternContLookup(savedEnv: Ptr, cont: ContPtr): (r: (Heap, ContPtr))
      ensures ContInterned(r.0, r.1, Continuation.Lookup(savedEnv, cont))
      ensures r.0 == this <==> (savedEnv, cont) in lookup
      ensures r.0 == this.(lookup := r.0.lookup)
    {
      var (t, i) := InsertFull(lookup, (savedEnv, cont));
      var h := this.(lookup := t);
      AddsToContLookups(this, t, (savedEnv, cont));
      var k := ContPtr(ContTag.Lookup, i);
      ContInternedByAdding(this, h, k, Continuation.Lookup(savedEnv, cont));
      (h, k)
    }

    /** `Store::intern_cont_unop`. */
    function InternContUnop(op: Op1, cont: ContPtr): (r: (Heap, ContPtr))
      ensures ContInterned(r.0, r.1, Continuation.Unop(op, cont))
      ensures r.0 == this <==> (op, cont) in unop
      ensures r.0 == this.(unop := r.0.unop)
    {
      var (t, i) := InsertFull(unop, (op, cont));
      var h := this.(unop := t);
      AddsToContUnops(this, t, (op, cont));
      var k := ContPtr(ContTag.Unop, i);
      ContInternedByAdding(this, h, k, Continuation.Unop(op, cont));
      (h, k)
    }

    /** `Store::intern_cont_binop`. */
    function InternContBinop(op: Op2, savedEnv: Ptr, unevaledArgs: Ptr, cont: ContPtr): (r: (Heap, ContPtr))
      ensures ContInterned(r.0, r.1, Continuation.Binop(op, savedEnv, unevaledArgs, cont))
      ensures r.0 == this <==> (op, savedEnv, unevaledArgs, cont) in binop
      ensures r.0 == this.(binop := r.0.binop)
    {
      var (t, i) := InsertFull(binop, (op, savedEnv, unevaledArgs, cont));
      var h := this.(binop := t);
      AddsToContBinops(this, t, (op, savedEnv, unevaledArgs, cont));
      var k := ContPtr(ContTag.Binop, i);
      ContInternedByAdding(this, h, k, Continuation.Binop(op, savedEnv, unevaledArgs, cont));
      (h, k)
    }

    /** `Store::intern_cont_binop2`. */
    function InternContBinop2(op: Op2, arg1: Ptr, cont: ContPtr): (r: (Heap, ContPtr))
      ensures ContInterned(r.0, r.1, Continuation.Binop2(op, arg1, cont))
      ensures r.0 == this <==> (op, arg1, cont) in binop2
      ensures r.0 == this.(binop2 := r.0.binop2)
    {
      var (t, i) := InsertFull(binop2, (op, arg1, cont));
      var h := this.(binop2 := t);
      AddsToContBinop2s(this, t, (op, arg1, cont));
      var k := ContPtr(ContTag.Binop2, i);
      ContInternedByAdding(this, h, k, Continuation.Binop2(op, arg1, cont));
      (h, k)
    }

    /** `Store::intern_cont_relop`. */
    function InternContRelop(rel: Rel2, savedEnv: Ptr, unevaledArgs: Ptr, cont: ContPtr): (r: (Heap, ContPtr))
      ensures ContInterned(r.0, r.1, Continuation.Relop(rel, savedEnv, unevaledArgs, cont))
      ensures r.0 == this <==> (rel, savedEnv, unevaledArgs, cont) in relop
      ensures r.0 == this.(relop := r.0.relop)
    {
      var (t, i) := InsertFull(relop, (rel, savedEnv, unevaledArgs, cont));
      var h := this.(relop := t);
      AddsToContRelops(this, t, (rel, savedEnv, unevaledArgs, cont));
      var k := ContPtr(ContTag.Relop, i);
      ContInternedByAdding(this, h, k, Continuation.Relop(rel, savedEnv, unevaledArgs, cont));
      (h, k)
    }

    /** `Store::intern_cont_relop2`. */
    function InternContRelop2(rel: Rel2, arg1: Ptr, cont: ContPtr): (r: (Heap, ContPtr))
      ensures ContInterned(r.0, r.1, Continuation.Relop2(rel, arg1, cont))
      ensures r.0 == this <==> (rel, arg1, cont) in relop2
      ensures r.0 == this.(relop2 := r.0.relop2)
    {
      var (t, i) := InsertFull(relop2, (rel, arg1, cont));
      var h := this.(relop2 := t);
      AddsToContRelop2s(this, t, (rel, arg1, cont));
      var k := ContPtr(ContTag.Relop2, i);
      ContInternedByAdding(this, h, k, Continuation.Relop2(rel, arg1, cont));
      (h, k)
    }

    /** `Store::intern_cont_if`. */
    function InternContIf(unevaledArgs: Ptr, cont: ContPtr): (r: (Heap, ContPtr))
      ensures ContInterned(r.0, r.1, Continuation.If(unevaledArgs, cont))
      ensures r.0 == this <==> (unevaledArgs, cont) in ifs
      ensures r.0 == this.(ifs := r.0.ifs)
    {
      var (t, i) := InsertFull(ifs, (unevaledArgs, cont));
      var h := this.(ifs := t);
      AddsToContIfs(this, t, (unevaledArgs, cont));
      var k := ContPtr(ContTag.If, i);
      ContInternedByAdding(this, h, k, Continuation.If(unevaledArgs, cont));
      (h, k)
    }

    /** `Store::intern_cont_let_star`. */
    function InternContLetStar(variable: Ptr, body: Ptr, savedEnv: Ptr, cont: ContPtr): (r: (Heap, ContPtr))
      ensures ContInterned(r.0, r.1, Continuation.LetStar(variable, body, savedEnv, cont))
      ensures r.0 == this <==> (variable, body, savedEnv, cont) in letStar
      ensures r.0 == this.(letStar := r.0.letStar)
    {
      var (t, i) := InsertFull(letStar, (variable, body, savedEnv, cont));
      var h := this.(letStar := t);
      AddsToContLetStars(this, t, (variable, body, savedEnv, cont));
      var k := ContPtr(ContTag.LetStar, i);
      ContInternedByAdding(this, h, k, Continuation.LetStar(variable, body, savedEnv, cont));
      (h, k)
    }

    /** `Store::intern_cont_let_rec_star`. */
    function InternContLetRecStar(variable: Ptr, body: Ptr, savedEnv: Ptr, cont: ContPtr): (r: (Heap, ContPtr))
      ensures ContInterned(r.0, r.1, Continuation.LetRecStar(variable, body, savedEnv, cont))
      ensures r.0 == this <==> (variable, body, savedEnv, cont) in letRecStar
      ensures r.0 == this.(letRecStar := r.0.letRecStar)
    {
      var (t, i) := InsertFull(letRecStar, (variable, body, savedEnv, cont));
      var h := this.(letRecStar := t);
      AddsToContLetRecStars(this, t, (variable, body, savedEnv, cont));
      var k := ContPtr(ContTag.LetRecStar, i);
      ContInternedByAdding(this, h, k, Continuation.LetRecStar(variable, body, savedEnv, cont));
      (h, k)
    }
  }

  /** Hash-consing: in a store without duplicates, an expression other than nil has one pointer. */
  lemma OnePointerPerExpr(h: Heap, p: Ptr)
    ensures h.Wf() && h.Fetch(p).Some? && h.Fetch(p).value != Expression.Nil ==>
      forall q :: h.Fetch(q) == h.Fetch(p) ==> q == p
  {
  }

  /** Hash-consing: in a store without duplicates, a continuation with a table has one pointer. */
  lemma OnePointerPerCont(h: Heap, k: ContPtr)
    ensures h.Wf() && h.FetchCont(k).Some? && !IsConstantCont(k.tag) ==>
      forall q :: h.FetchCont(q) == h.FetchCont(k) ==> q == k
  {
  }

  /** A pointer is nil exactly when it dereferences to `Nil`, in any store. */
  lemma NilPointers(h: Heap, p: Ptr)
    ensures p.IsNil() <==> h.Fetch(p) == Some(Expression.Nil)
  {
  }

  /** A continuation pointer is the error continuation exactly when it dereferences to `Error`, in any store. */
  lemma ErrorPointers(h: Heap, k: ContPtr)
    ensures k.IsError() <==> h.FetchCont(k) == Some(Continuation.Error)
  {
  }

  /** A list stays the same list when the tables grow. */
  lemma {:induction false} ListGrows(h: Heap, h2: Heap, p: Ptr, elts: seq<Ptr>)
    requires h.GrowsTo(h2) && h.IsList(p, elts)
    ensures h2.IsList(p, elts)
    decreases |elts|
  {
    if elts == [] {
      NilSpellings();
      IndexOfPrefix(h.syms, h2.syms, "NIL");
    } else {
      assert h2.cons[p.idx] == h.cons[p.idx];
      ListGrows(h, h2, h.cons[p.idx].1, elts[1..]);
    }
  }

  /** `intern_list` of a suffix conses its first element onto the list of the rest. */
  lemma InternListSuffix(h: Heap, elts: seq<Ptr>, i: nat)
    requires i < |elts|
    ensures h.InternList(elts[i..]) ==
      var (h1, rest) := h.InternList(elts[i + 1..]);
      h1.InternCons(elts[i], rest)
  {
    assert elts[i..][1..] == elts[i + 1..];
  }

  /** Growing the tables keeps every in-range pointer in range and fetching what it fetched. */
  lemma FetchGrows(h: Heap, h2: Heap, p: Ptr)
    requires h.GrowsTo(h2) && h.Live(p)
    ensures h2.Live(p) && h2.Fetch(p) == h.Fetch(p)
  {
  }

  lemma FetchContGrows(h: Heap, h2: Heap, k: ContPtr)
    requires h.GrowsTo(h2) && h.LiveCont(k)
    ensures h2.LiveCont(k) && h2.FetchCont(k) == h.FetchCont(k)
  {
  }

  lemma ChildrenLiveGrows(h: Heap, h2: Heap, e: Expression)
    requires h.GrowsTo(h2) && h.ChildrenLive(e)
    ensures h2.ChildrenLive(e)
  {
  }

  lemma ContChildrenLiveGrows(h: Heap, h2: Heap, c: Continuation)
    requires h.GrowsTo(h2) && h.ContChildrenLive(c)
    ensures h2.ContChildrenLive(c)
  {
  }

  /** After adding one expression, a pointer in range that was not in range before fetches it. */
  lemma NewExprIsAdded(h: Heap, h2: Heap, e: Expression, p: Ptr)
    requires h.AddsOnlyExpr(h2, e) && h2.Live(p) && !h.Live(p)
    ensures h2.Fetch(p) == Some(e)
  {
    assert p.tag == ExprTag(e);
  }

  /** After adding one continuation, a pointer in range that was not in range before fetches it. */
  lemma NewContIsAdded(h: Heap, h2: Heap, c: Continuation, k: ContPtr)
    requires h.AddsOnlyCont(h2, c) && h2.LiveCont(k) && !h.LiveCont(k)
    ensures h2.FetchCont(k) == Some(c)
  {
    assert k.tag == ContTagOf(c);
  }

  /** Adding entries for one expression whose pointers are in range keeps a closed store closed. */
  lemma ClosedAfterAddingExpr(h: Heap, h2: Heap, e: Expression)
    requires h.AddsOnlyExpr(h2, e)
    ensures h.Closed() && h.ChildrenLive(e) ==> h2.Closed()
  {
    if h.Closed() && h.ChildrenLive(e) {
      forall p | h2.Live(p) ensures h2.ChildrenLive(h2.Fetch(p).value) {
        if h.Live(p) {
          FetchGrows(h, h2, p);
          ChildrenLiveGrows(h, h2, h.Fetch(p).value);
        } else {
          NewExprIsAdded(h, h2, e, p);
          ChildrenLiveGrows(h, h2, e);
        }
      }
      forall k | h2.LiveCont(k) ensures h2.ContChildrenLive(h2.FetchCont(k).value) {
        FetchContGrows(h, h2, k);
        ContChildrenLiveGrows(h, h2, h.FetchCont(k).value);
      }
    }
  }

  /** With the same expression tables, an expression pointer is in range and fetches the same in both. */
  lemma SameExprFetch(h: Heap, h2: Heap, p: Ptr)
    requires h.SameExprTables(h2)
    ensures h2.Live(p) == h.Live(p) && h2.Fetch(p) == h.Fetch(p)
  {
  }

  /** Adding entries for one continuation whose pointers are in range keeps a closed store closed. */
  lemma ClosedAfterAddingCont(h: Heap, h2: Heap, c: Continuation)
    requires h.AddsOnlyCont(h2, c)
    ensures h.Closed() && h.ContChildrenLive(c) ==> h2.Closed()
  {
    if h.Closed() && h.ContChildrenLive(c) {
      forall p | h2.Live(p) ensures h2.ChildrenLive(h2.Fetch(p).value) {
        SameExprFetch(h, h2, p);
        ChildrenLiveGrows(h, h2, h.Fetch(p).value);
      }
      forall k | h2.LiveCont(k) ensures h2.ContChildrenLive(h2.FetchCont(k).value) {
        if h.LiveCont(k) {
          FetchContGrows(h, h2, k);
          ContChildrenLiveGrows(h, h2, h.FetchCont(k).value);
        } else {
          NewContIsAdded(h, h2, c, k);
          ContChildrenLiveGrows(h, h2, c);
        }
      }
    }
  }

  /*
   * Interning into one table: the table either stays as it was or gains the
   * new content at its end, and every other table is untouched.
   */
  lemma AddsToCons(h: Heap, t: seq<(Ptr, Ptr)>, x: (Ptr, Ptr))
    requires t == h.cons || t == h.cons + [x]
    ensures h.AddsOnlyExpr(h.(cons := t), Expression.Cons(x.0, x.1))
  {
  }

  lemma AddsToSyms(h: Heap, t: seq<string>, x: string)
    requires t == h.syms || t == h.syms + [x]
    ensures h.AddsOnlyExpr(h.(syms := t), Expression.Sym(x))
  {
  }

  lemma AddsToNums(h: Heap, t: seq<Num>, x: Num)
    requires t == h.nums || t == h.nums + [x]
    ensures h.AddsOnlyExpr(h.(nums := t), Expression.Num(x))
  {
  }

  lemma AddsToFuns(h: Heap, t: seq<(Ptr, Ptr, Ptr)>, x: (Ptr, Ptr, Ptr))
    requires t == h.funs || t == h.funs + [x]
    ensures h.AddsOnlyExpr(h.(funs := t), Expression.Fun(x.0, x.1, x.2))
  {
  }

  lemma AddsToStrs(h: Heap, t: seq<string>, x: string)
    requires t == h.strs || t == h.strs + [x]
    ensures h.AddsOnlyExpr(h.(strs := t), Expression.Str(x))
  {
  }

  lemma AddsToThunks(h: Heap, t: seq<Thunk>, x: Thunk)
    requires t == h.thunks || t == h.thunks + [x]
    ensures h.AddsOnlyExpr(h.(thunks := t), Expression.Thunk(x))
  {
  }

  lemma AddsToContCalls(h: Heap, t: seq<(Ptr, Ptr, ContPtr)>, x: (Ptr, Ptr, ContPtr))
    requires t == h.call || t == h.call + [x]
    ensures h.AddsOnlyCont(h.(call := t), Continuation.Call(x.0, x.1, x.2))
  {
  }

  lemma AddsToContCall2s(h: Heap, t: seq<(Ptr, Ptr, ContPtr)>, x: (Ptr, Ptr, ContPtr))
    requires t == h.call2 || t == h.call2 + [x]
    ensures h.AddsOnlyCont(h.(call2 := t), Continuation.Call2(x.0, x.1, x.2))
  {
  }

  lemma AddsToContTails(h: Heap, t: seq<(Ptr, ContPtr)>, x: (Ptr, ContPtr))
    requires t == h.tail || t == h.tail + [x]
    ensures h.AddsOnlyCont(h.(tail := t), Continuation.Tail(x.0, x.1))
  {
  }

  lemma AddsToContLookups(h: Heap, t: seq<(Ptr, ContPtr)>, x: (Ptr, ContPtr))
    requires t == h.lookup || t == h.lookup + [x]
    ensures h.AddsOnlyCont(h.(lookup := t), Continuation.Lookup(x.0, x.1))
  {
  }

  lemma AddsToContUnops(h: Heap, t: seq<(Op1, ContPtr)>, x: (Op1, ContPtr))
    requires t == h.unop || t == h.unop + [x]
    ensures h.AddsOnlyCont(h.(unop := t), Continuation.Unop(x.0, x.1))
  {
  }

  lemma AddsToContBinops(h: Heap, t: seq<(Op2, Ptr, Ptr, ContPtr)>, x: (Op2, Ptr, Ptr, ContPtr))
    requires t == h.binop || t == h.binop + [x]
    ensures h.AddsOnlyCont(h.(binop := t), Continuation.Binop(x.0, x.1, x.2, x.3))
  {
  }

  lemma AddsToContBinop2s(h: Heap, t: seq<(Op2, Ptr, ContPtr)>, x: (Op2, Ptr, ContPtr))
    requires t == h.binop2 || t == h.binop2 + [x]
    ensures h.AddsOnlyCont(h.(binop2 := t), Continuation.Binop2(x.0, x.1, x.2))
  {
  }

  lemma AddsToContRelops(h: Heap, t: seq<(Rel2, Ptr, Ptr, ContPtr)>, x: (Rel2, Ptr, Ptr, ContPtr))
    requires t == h.relop || t == h.relop + [x]
    ensures h.AddsOnlyCont(h.(relop := t), Continuation.Relop(x.0, x.1, x.2, x.3))
  {
  }

  lemma AddsToContRelop2s(h: Heap, t: seq<(Rel2, Ptr, ContPtr)>, x: (Rel2, Ptr, ContPtr))
    requires t == h.relop2 || t == h.relop2 + [x]
    ensures h.AddsOnlyCont(h.(relop2 := t), Continuation.Relop2(x.0, x.1, x.2))
  {
  }

  lemma AddsToContIfs(h: Heap, t: seq<(Ptr, ContPtr)>, x: (Ptr, ContPtr))
    requires t == h.ifs || t == h.ifs + [x]
    ensures h.AddsOnlyCont(h.(ifs := t), Continuation.If(x.0, x.1))
  {
  }

  lemma AddsToContLetStars(h: Heap, t: seq<(Ptr, Ptr, Ptr, ContPtr)>, x: (Ptr, Ptr, Ptr, ContPtr))
    requires t == h.letStar || t == h.letStar + [x]
    ensures h.AddsOnlyCont(h.(letStar := t), Continuation.LetStar(x.0, x.1, x.2, x.3))
  {
  }

  lemma AddsToContLetRecStars(h: Heap, t: seq<(Ptr, Ptr, Ptr, ContPtr)>, x: (Ptr, Ptr, Ptr, ContPtr))
    requires t == h.letRecStar || t == h.letRecStar + [x]
    ensures h.AddsOnlyCont(h.(letRecStar := t), Continuation.LetRecStar(x.0, x.1, x.2, x.3))
  {
  }

  /** Adding one expression, which the new pointer fetches, gives every guarantee of interning. */
  lemma InternedByAdding(h: Heap, h2: Heap, p: Ptr, e: Expression)
    requires h.AddsOnlyExpr(h2, e) && h2.Fetch(p) == Some(e)
    requires h.Wf() ==> h2.Wf()
    ensures h.Interned(h2, p, e)
  {
    ClosedAfterAddingExpr(h, h2, e);
    OnePointerPerExpr(h2, p);
  }

  /**
   * A symbol is stored in the symbol table; the pointer to `"NIL"` is tagged
   * `Nil` and fetches `Nil`, the pointer to any other name fetches the symbol.
   */
  lemma SymInterned(h: Heap, h2: Heap, i: nat, name: string)
    requires h.Interned(h2, Ptr(Tag.Sym, i), Expression.Sym(name))
    ensures h.Interned(h2, Ptr(if name == "NIL" then Tag.Nil else Tag.Sym, i),
      if name == "NIL" then Expression.Nil else Expression.Sym(name))
  {
  }

  /** Adding one continuation, which the new pointer fetches, gives every guarantee of interning. */
  lemma ContInternedByAdding(h: Heap, h2: Heap, k: ContPtr, c: Continuation)
    requires h.AddsOnlyCont(h2, c) && h2.FetchCont(k) == Some(c)
    requires h.Wf() ==> h2.Wf()
    ensures h.ContInterned(h2, k, c)
  {
    ClosedAfterAddingCont(h, h2, c);
    OnePointerPerCont(h2, k);
  }

  /** A heap whose only entries are symbols (and strings and numbers) stores no pointers, so it is closed. */
  lemma NoPointersClosed(h: Heap)
    requires h.cons == [] && h.funs == [] && h.thunks == [] && h.simple == []
    requires h.call == [] && h.call2 == [] && h.tail == [] && h.lookup == [] && h.unop == []
    requires h.binop == [] && h.binop2 == [] && h.relop == [] && h.relop2 == [] && h.ifs == []
    requires h.letStar == [] && h.letRecStar == []
    ensures h.Closed()
  {
    forall p | h.Live(p) ensures h.ChildrenLive(h.Fetch(p).value) {
    }
    forall k | h.LiveCont(k) ensures h.ContChildrenLive(h.FetchCont(k).value) {
      assert IsConstantCont(k.tag);
    }
  }

  function EmptyHeap(): (h: Heap)
    ensures h.Wf() && h.Closed()
  {
    Heap([], [], [], [], [], [], [], [], [], [], [], [], [], [], [], [], [], [], [])
  }
}
