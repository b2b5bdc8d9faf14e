/**
 * Content addressing in Lurk's store: every expression and continuation has a
 * scalar pointer `(tag, hash)` computed bottom-up with Poseidon. Poseidon
 * itself is not modelled: `hash4`, `hash6` and `hash8` are arbitrary
 * functions passed in as `Primitives`, and so is `Num::into_scalar`.
 * Field elements are modelled as integers; the store only compares them and
 * feeds them to the hash functions.
 */
module Hashing {
  import opened Options
  import opened IndexSets
  import opened Encoding
  import opened Heaps

  /** A field element. */
  type Fe = int

  /** The Poseidon hashes of arity 4, 6 and 8 and the scalar of a number. */
  datatype Primitives = Primitives(
    hash4: seq<Fe> -> Fe,
    hash6: seq<Fe> -> Fe,
    hash8: seq<Fe> -> Fe,
    numScalar: Num -> Fe)

  /** One row of a preimage: the two hash components of one child. */
  type Row = (Fe, Fe)

  /** `ScalarPtr<F>`: the tag as a field element and the hash. */
  datatype ScalarPtr = ScalarPtr(tag: Fe, value: Fe) {
    /** `into_hash_components`. */
    function Row(): (r: Row)
      ensures r.0 == tag && r.1 == value
    {
      (tag, value)
    }
  }

  /** `ScalarContPtr<F>`: the continuation tag as a field element and the hash. */
  datatype ScalarContPtr = ScalarContPtr(tag: Fe, value: Fe) {
    function Row(): (r: Row)
      ensures r.0 == tag && r.1 == value
    {
      (tag, value)
    }
  }

  /** The `[0, 0]` row that pads a continuation's preimage. */
  const Pad: Row := (0, 0)

  /** Flattens a 4x2 preimage into 8 elements, row by row. */
  function Flatten(rows: seq<Row>): (r: seq<Fe>)
    requires |rows| == 4
    ensures |r| == 8
    ensures forall i :: 0 <= i < 4 ==> r[2 * i] == rows[i].0 && r[2 * i + 1] == rows[i].1
  {
    [rows[0].0, rows[0].1, rows[1].0, rows[1].1, rows[2].0, rows[2].1, rows[3].0, rows[3].1]
  }

  // ---------------------------------------------------------------------
  // hash_string
  // ---------------------------------------------------------------------

  /** Number of bytes in the UTF-8 encoding of one character. */
  function Utf8Width(c: char): nat {
    if c as int < 0x80 then 1
    else if c as int < 0x800 then 2
    else if c as int < 0x10000 then 3
    else 4
  }

  /** `str::len`: the length of the UTF-8 encoding in bytes, not the number of characters. */
  function Utf8Len(s: string): (n: nat)
    ensures |s| <= n <= 4 * |s|
    ensures (forall i :: 0 <= i < |s| ==> s[i] as int < 0x80) ==> n == |s|
  {
    if s == [] then 0 else Utf8Width(s[0]) + Utf8Len(s[1..])
  }

  /** The characters of `s` as field elements (`F::from(c as u64)`). */
  function Codes(s: string): (r: seq<Fe>)
    ensures |r| == |s|
    ensures forall i :: 0 <= i < |s| ==> r[i] == s[i] as int
  {
    seq(|s|, i requires 0 <= i < |s| => s[i] as int)
  }

  /** The number of characters one call of `hash8` absorbs. */
  const ChunkSize: nat := 7

  function Min(a: nat, b: nat): nat {
    if a <= b then a else b
  }

  /**
   * The preimage after one chunk is written into it: slot 0 holds the running
   * hash, slots 1.. the chunk's characters, and the slots the chunk does not
   * reach keep what the previous chunk left there.
   */
  function Fill(pre: seq<Fe>, x: Fe, chunk: seq<Fe>): (r: seq<Fe>)
    requires |pre| == 8 && |chunk| <= ChunkSize
    ensures |r| == 8 && r[0] == x
    ensures forall j :: 0 <= j < |chunk| ==> r[j + 1] == chunk[j]
    ensures forall j :: |chunk| < j < 8 ==> r[j] == pre[j]
  {
    [x] + chunk + pre[|chunk| + 1..]
  }

  /**
   * The preimages `hash_string` passes to `hash8`, in order, when `cs` remain
   * to be absorbed, the preimage array holds `pre` and the running hash is `x`.
   * There is one per chunk of seven characters.
   */
  function Preimages(hash8: seq<Fe> -> Fe, pre: seq<Fe>, x: Fe, cs: seq<Fe>): (r: seq<seq<Fe>>)
    requires |pre| == 8
    ensures |r| == (|cs| + ChunkSize - 1) / ChunkSize
    ensures forall i :: 0 <= i < |r| ==> |r[i]| == 8
    decreases |cs|
  {
    if cs == [] then []
    else
      var n := Min(|cs|, ChunkSize);
      var next := Fill(pre, x, cs[..n]);
      [next] + Preimages(hash8, next, hash8(next), cs[n..])
  }

  /** The running hash after the preimages in `trace` were hashed, starting from `x`. */
  function Finish(hash8: seq<Fe> -> Fe, trace: seq<seq<Fe>>, x: Fe): Fe {
    if trace == [] then x else hash8(trace[|trace| - 1])
  }

  /** The preimages `hash_string(s)` hashes: it starts from eight zeros and the byte length of `s`. */
  function StringPreimages(hash8: seq<Fe> -> Fe, s: string): seq<seq<Fe>> {
    Preimages(hash8, [0, 0, 0, 0, 0, 0, 0, 0], Utf8Len(s), Codes(s))
  }

  /** What `hash_string(s)` returns. */
  function StringHash(hash8: seq<Fe> -> Fe, s: string): (r: Fe)
    ensures s == "" ==> r == 0
  {
    Finish(hash8, StringPreimages(hash8, s), Utf8Len(s))
  }

  /** The empty string hashes to zero without calling `hash8`; any other string to the hash of its last preimage. */
  lemma StringHashEmpty(hash8: seq<Fe> -> Fe, s: string)
    ensures StringPreimages(hash8, s) == [] <==> s == ""
    ensures s == "" ==> StringHash(hash8, s) == 0
    ensures s != "" ==> StringHash(hash8, s) == hash8(StringPreimages(hash8, s)[(|s| + 6) / 7 - 1])
  {
  }

  /**
   * The shape of the `i`-th preimage, slot by slot: slot 0 chains the previous
   * hash (the start value for the first), slot `j + 1` holds character `j` of
   * the `i`-th chunk of seven, and where the last chunk is short, the slots
   * past its end still hold the previous chunk's characters.
   */
  lemma {:induction false} PreimageShape(hash8: seq<Fe> -> Fe, pre: seq<Fe>, x: Fe, cs: seq<Fe>, i: nat, j: nat)
    requires |pre| == 8 && i < |Preimages(hash8, pre, x, cs)| && j < ChunkSize
    ensures var t := Preimages(hash8, pre, x, cs);
      && t[i][0] == (if i == 0 then x else hash8(t[i - 1]))
      && (ChunkSize * i + j < |cs| ==> t[i][j + 1] == cs[ChunkSize * i + j])
      && (|cs| <= ChunkSize * i + j ==> t[i][j + 1] == (if i == 0 then pre[j + 1] else t[i - 1][j + 1]))
    decreases i
  {
    var n := Min(|cs|, ChunkSize);
    var next := Fill(pre, x, cs[..n]);
    var t := Preimages(hash8, pre, x, cs);
    var rest := Preimages(hash8, next, hash8(next), cs[n..]);
    assert t == [next] + rest;
    if i > 0 {
      assert n == ChunkSize;
      PreimageShape(hash8, next, hash8(next), cs[n..], i - 1, j);
      assert t[i] == rest[i - 1];
      if ChunkSize * i + j < |cs| {
        assert cs[n..][ChunkSize * (i - 1) + j] == cs[ChunkSize * i + j];
      }
    }
  }

  /**
   * Absorbing the chunk at position `i` of `cs` moves the running hash forward
   * and leaves the final hash the same.
   */
  lemma FinishStep(hash8: seq<Fe> -> Fe, pre: seq<Fe>, x: Fe, cs: seq<Fe>, i: nat)
    requires |pre| == 8 && i < |cs|
    ensures var n := Min(|cs| - i, ChunkSize);
      var next := Fill(pre, x, cs[i..i + n]);
      Finish(hash8, Preimages(hash8, pre, x, cs[i..]), x)
        == Finish(hash8, Preimages(hash8, next, hash8(next), cs[i + n..]), hash8(next))
  {
    var n := Min(|cs| - i, ChunkSize);
    assert cs[i..][..n] == cs[i..i + n];
    assert cs[i..][n..] == cs[i + n..];
  }

  /** The inner loop of `hash_string`: write `x` and one chunk into the preimage array. */
  method WriteChunk(preimage: array<Fe>, x: Fe, chunk: seq<Fe>)
    requires preimage.Length == 8 && |chunk| <= ChunkSize
    modifies preimage
    ensures preimage[..] == Fill(old(preimage[..]), x, chunk)
  {
    preimage[0] := x;
    var j := 1;
    while j < 8
      invariant 1 <= j <= 8
      invariant preimage[0] == x
      invariant forall m :: 1 <= m < j && m - 1 < |chunk| ==> preimage[m] == chunk[m - 1]
      invariant forall m :: 1 <= m < 8 && (j <= m || |chunk| < m) ==> preimage[m] == old(preimage[m])
    {
      if j - 1 < |chunk| {
        preimage[j] := chunk[j - 1];
      }
      j := j + 1;
    }
    assert forall m :: 0 <= m < 8 ==> preimage[m] == Fill(old(preimage[..]), x, chunk)[m];
  }

  /**
   * `Store::hash_string`: a fixed eight-element preimage, slot 0 carrying the
   * running hash (first the byte length of `s`), the characters absorbed seven
   * at a time, one `hash8` per chunk.
   */
  method HashString(hash8: seq<Fe> -> Fe, s: string) returns (x: Fe)
    ensures x == StringHash(hash8, s)
  {
    var preimage := new Fe[8](_ => 0);
    assert preimage[..] == [0, 0, 0, 0, 0, 0, 0, 0];
    x := Utf8Len(s);
    var cs := Codes(s);
    var i := 0;
    while i < |cs|
      invariant 0 <= i <= |cs|
      invariant preimage.Length == 8
      invariant Finish(hash8, Preimages(hash8, preimage[..], x, cs[i..]), x) == StringHash(hash8, s)
      decreases |cs| - i
    {
      var n := Min(|cs| - i, ChunkSize);
      FinishStep(hash8, preimage[..], x, cs, i);
      WriteChunk(preimage, x, cs[i..i + n]);
      x := hash8(preimage[..]);
      i := i + n;
    }
  }

  // ---------------------------------------------------------------------
  // hash_expr and hash_cont
  // ---------------------------------------------------------------------

  /** What occupies one row of a continuation's preimage. */
  datatype Slot =
    | Zero
    | OpCode(code: nat)
    | ExprHash(ptr: Ptr)
    | ContHash(cont: ContPtr)

  /**
   * The rows of `get_hash_components_*`, one table entry per continuation:
   * constant continuations are all padding, `Call` and `Call2` put the saved
   * env before the argument or function, an operator occupies the first row
   * as `(code, 0)`, and the continuation comes after the other children.
   */
  function Layout(c: Continuation): (r: seq<Slot>)
    ensures |r| == 4
    ensures IsConstantCont(ContTagOf(c)) <==> r == [Zero, Zero, Zero, Zero]
  {
    match c
    case Outermost => [Zero, Zero, Zero, Zero]
    case Dummy => [Zero, Zero, Zero, Zero]
    case Terminal => [Zero, Zero, Zero, Zero]
    case Error => [Zero, Zero, Zero, Zero]
    case Simple(k) => [ContHash(k), Zero, Zero, Zero]
    case Call(arg, env, k) => [ExprHash(env), ExprHash(arg), ContHash(k), Zero]
    case Call2(fun, env, k) => [ExprHash(env), ExprHash(fun), ContHash(k), Zero]
    case Tail(env, k) => [ExprHash(env), ContHash(k), Zero, Zero]
    case Lookup(env, k) => [ExprHash(env), ContHash(k), Zero, Zero]
    case Unop(op, k) => [OpCode(Op1Value(op)), ContHash(k), Zero, Zero]
    case Binop(op, env, args, k) => [OpCode(Op2Value(op)), ExprHash(env), ExprHash(args), ContHash(k)]
    case Binop2(op, arg1, k) => [OpCode(Op2Value(op)), ExprHash(arg1), ContHash(k), Zero]
    case Relop(rel, env, args, k) => [OpCode(Rel2Value(rel)), ExprHash(env), ExprHash(args), ContHash(k)]
    case Relop2(rel, arg1, k) => [OpCode(Rel2Value(rel)), ExprHash(arg1), ContHash(k), Zero]
    case If(args, k) => [ExprHash(args), ContHash(k), Zero, Zero]
    case LetStar(v, body, env, k) => [ExprHash(v), ExprHash(body), ExprHash(env), ContHash(k)]
    case LetRecStar(v, body, env, k) => [ExprHash(v), ExprHash(body), ExprHash(env), ContHash(k)]
  }

  /** The number of fields a continuation carries (its operator, pointers and continuation). */
  function Arity(c: Continuation): nat {
    match c
    case Outermost => 0
    case Dummy => 0
    case Terminal => 0
    case Error => 0
    case Simple(_) => 1
    case Call(_, _, _) => 3
    case Call2(_, _, _) => 3
    case Tail(_, _) => 2
    case Lookup(_, _) => 2
    case Unop(_, _) => 2
    case Binop(_, _, _, _) => 4
    case Binop2(_, _, _) => 3
    case Relop(_, _, _, _) => 4
    case Relop2(_, _, _) => 3
    case If(_, _) => 2
    case LetStar(_, _, _, _) => 4
    case LetRecStar(_, _, _, _) => 4
  }

  /**
   * Every field of a continuation gets one row, in the first `Arity` rows,
   * the rest is padding, and a continuation that has a child continuation
   * puts it last.
   */
  lemma LayoutShape(c: Continuation)
    ensures forall i :: 0 <= i < 4 ==> (Layout(c)[i] == Zero <==> Arity(c) <= i)
    ensures Arity(c) == 0 <==> IsConstantCont(ContTagOf(c))
    ensures Arity(c) > 0 ==> Layout(c)[Arity(c) - 1] == ContHash(c.cont)
  {
  }

  /** The row a slot contributes when the children are hashed with `fuel`. */
  function SlotRow(p: Primitives, h: Heap, s: Slot, fuel: nat): Option<Row>
    decreases fuel, 1
  {
    match s
    case Zero => Some(Pad)
    case OpCode(v) => Some((v, 0))
    case ExprHash(q) =>
      var e :- HashExpr(p, h, q, fuel);
      Some(e.Row())
    case ContHash(k) =>
      var c :- HashCont(p, h, k, fuel);
      Some(c.Row())
  }

  /** `get_hash_components_cont`: the eight elements hashed for a continuation, if every child hashes. */
  function ContComponents(p: Primitives, h: Heap, c: Continuation, fuel: nat): (r: Option<seq<Fe>>)
    ensures r.Some? ==> |r.value| == 8
    decreases fuel, 2
  {
    var layout := Layout(c);
    var r0 :- SlotRow(p, h, layout[0], fuel);
    var r1 :- SlotRow(p, h, layout[1], fuel);
    var r2 :- SlotRow(p, h, layout[2], fuel);
    var r3 :- SlotRow(p, h, layout[3], fuel);
    Some(Flatten([r0, r1, r2, r3]))
  }

  /** `hash_ptrs_2`: `hash4` of the two children's components, if both hash. */
  function HashPtrs2(p: Primitives, h: Heap, a: Ptr, b: Ptr, fuel: nat): (r: Option<Fe>)
    decreases fuel, 1
  {
    var x :- HashExpr(p, h, a, fuel);
    var y :- HashExpr(p, h, b, fuel);
    Some(p.hash4([x.tag, x.value, y.tag, y.value]))
  }

  /** `hash_ptrs_3`: `hash6` of the three children's components, if all hash. */
  function HashPtrs3(p: Primitives, h: Heap, a: Ptr, b: Ptr, c: Ptr, fuel: nat): (r: Option<Fe>)
    decreases fuel, 1
  {
    var x :- HashExpr(p, h, a, fuel);
    var y :- HashExpr(p, h, b, fuel);
    var z :- HashExpr(p, h, c, fuel);
    Some(p.hash6([x.tag, x.value, y.tag, y.value, z.tag, z.value]))
  }

  /** `get_hash_components_thunk`: the value's and the continuation's hash components. */
  function ThunkComponents(p: Primitives, h: Heap, t: Thunk, fuel: nat): (r: Option<seq<Fe>>)
    decreases fuel, 1
  {
    var v :- HashExpr(p, h, t.value, fuel);
    var k :- HashCont(p, h, t.continuation, fuel);
    Some([v.tag, v.value, k.tag, k.value])
  }

  /**
   * `Store::hash_expr`, with `fuel` bounding the depth of the recursion: nil
   * hashes the string `"NIL"` (and needs the symbol interned, as `get_nil`
   * does), symbols and strings hash their text, conses and functions the
   * components of their children with `hash4`/`hash6`, numbers are their own
   * scalar, thunks `hash4` their value and continuation. A pointer out of
   * range, a child that does not hash, or exhausted fuel gives `None`.
   */
  function HashExpr(p: Primitives, h: Heap, ptr: Ptr, fuel: nat): (r: Option<ScalarPtr>)
    ensures r.Some? ==> r.value.tag == TagValue(ptr.tag) && h.Live(ptr)
    decreases fuel, 0
  {
    if fuel == 0 then None
    else
      var tag := TagValue(ptr.tag);
      match ptr.tag
      case Nil =>
        if "NIL" in h.syms then Some(ScalarPtr(tag, StringHash(p.hash8, "NIL"))) else None
      case Cons =>
        var pair :- GetIndex(h.cons, ptr.idx);
        var hash :- HashPtrs2(p, h, pair.0, pair.1, fuel - 1);
        Some(ScalarPtr(tag, hash))
      case Sym =>
        var name :- GetIndex(h.syms, ptr.idx);
        Some(ScalarPtr(tag, StringHash(p.hash8, name)))
      case Fun =>
        var fun :- GetIndex(h.funs, ptr.idx);
        var hash :- HashPtrs3(p, h, fun.0, fun.1, fun.2, fuel - 1);
        Some(ScalarPtr(tag, hash))
      case Num =>
        var n :- GetIndex(h.nums, ptr.idx);
        Some(ScalarPtr(tag, p.numScalar(n)))
      case Str =>
        var s :- GetIndex(h.strs, ptr.idx);
        Some(ScalarPtr(tag, StringHash(p.hash8, s)))
      case Thunk =>
        var t :- GetIndex(h.thunks, ptr.idx);
        var v :- ThunkComponents(p, h, t, fuel - 1);
        Some(ScalarPtr(tag, p.hash4(v)))
  }

  /** `Store::hash_cont`: `hash8` of the continuation's eight components, tagged with its continuation tag. */
  function HashCont(p: Primitives, h: Heap, k: ContPtr, fuel: nat): (r: Option<ScalarContPtr>)
    ensures r.Some? ==> r.value.tag == ContTagValue(k.tag) && h.LiveCont(k)
    decreases fuel, 0
  {
    if fuel == 0 then None
    else
      var c :- h.FetchCont(k);
      var v :- ContComponents(p, h, c, fuel - 1);
      Some(ScalarContPtr(ContTagValue(k.tag), p.hash8(v)))
  }

  // ---------------------------------------------------------------------
  // Properties of the layout and of hashing
  // ---------------------------------------------------------------------

  /**
   * What one row holds: padding is `[0, 0]`, an operator is `(code, 0)`, and
   * a child's row starts with its tag value and exists only when the child
   * is in range.
   */
  lemma SlotRowShape(p: Primitives, h: Heap, s: Slot, fuel: nat)
    ensures s.Zero? ==> SlotRow(p, h, s, fuel) == Some(Pad)
    ensures s.OpCode? ==> SlotRow(p, h, s, fuel) == Some((s.code, 0))
    ensures s.ExprHash? && SlotRow(p, h, s, fuel).Some? ==>
      SlotRow(p, h, s, fuel).value.0 == TagValue(s.ptr.tag) && h.Live(s.ptr)
    ensures s.ContHash? && SlotRow(p, h, s, fuel).Some? ==>
      SlotRow(p, h, s, fuel).value.0 == ContTagValue(s.cont.tag) && h.LiveCont(s.cont)
  {
  }

  /** `hash_ptrs_2` and `hash_ptrs_3` succeed only when every pointer is in range. */
  lemma HashPtrsLive(p: Primitives, h: Heap, a: Ptr, b: Ptr, c: Ptr, fuel: nat)
    ensures HashPtrs2(p, h, a, b, fuel).Some? ==> h.Live(a) && h.Live(b)
    ensures HashPtrs3(p, h, a, b, c, fuel).Some? ==> h.Live(a) && h.Live(b) && h.Live(c)
  {
  }

  /**
   * A thunk's components are four elements, the value's tag value first and
   * the continuation's tag value third, and exist only when both are in range.
   */
  lemma ThunkComponentsShape(p: Primitives, h: Heap, t: Thunk, fuel: nat)
    requires ThunkComponents(p, h, t, fuel).Some?
    ensures var v := ThunkComponents(p, h, t, fuel).value;
      && |v| == 4 && h.Live(t.value) && h.LiveCont(t.continuation)
      && v[0] == TagValue(t.value.tag) && v[2] == ContTagValue(t.continuation.tag)
  {
  }

  /** Outermost, Dummy, Terminal and Error hash eight zeros. */
  lemma ConstantContComponents(p: Primitives, h: Heap, c: Continuation, fuel: nat)
    requires IsConstantCont(ContTagOf(c))
    ensures ContComponents(p, h, c, fuel) == Some([0, 0, 0, 0, 0, 0, 0, 0])
  {
  }

  /**
   * Where the children's hashes land among the eight components: the rows
   * past the continuation's fields are zero, its child continuation (if it
   * has one) fills the last row it uses, and `Call`/`Call2` put the saved env
   * in the first row and the argument or function in the second.
   */
  lemma ContComponentsShape(p: Primitives, h: Heap, c: Continuation, fuel: nat)
    requires ContComponents(p, h, c, fuel).Some?
    ensures var v := ContComponents(p, h, c, fuel).value;
      && (forall i :: 2 * Arity(c) <= i < 8 ==> v[i] == 0)
      && (Arity(c) > 0 ==>
            HashCont(p, h, c.cont, fuel).Some?
            && (v[2 * Arity(c) - 2], v[2 * Arity(c) - 1]) == HashCont(p, h, c.cont, fuel).value.Row())
      && ((c.Call? || c.Call2?) ==>
            HashExpr(p, h, c.savedEnv, fuel).Some?
            && (v[0], v[1]) == HashExpr(p, h, c.savedEnv, fuel).value.Row())
      && (c.Call? ==> HashExpr(p, h, c.arg, fuel).Some? && (v[2], v[3]) == HashExpr(p, h, c.arg, fuel).value.Row())
      && (c.Call2? ==> HashExpr(p, h, c.fun, fuel).Some? && (v[2], v[3]) == HashExpr(p, h, c.fun, fuel).value.Row())
  {
    LayoutShape(c);
    var layout := Layout(c);
    var rows := seq(4, i requires 0 <= i < 4 => SlotRow(p, h, layout[i], fuel).value);
    assert ContComponents(p, h, c, fuel).value == Flatten(rows);
  }

  /**
   * Hashes are stable: once a pointer hashes, it hashes to the same scalar
   * pointer with more fuel and after any number of further interns (the
   * tables only grow, so nothing it depends on changes).
   */
  lemma {:induction false} HashExprStable(p: Primitives, h: Heap, h2: Heap, ptr: Ptr, fuel: nat, more: nat)
    requires h.GrowsTo(h2) && fuel <= more
    requires HashExpr(p, h, ptr, fuel).Some?
    ensures HashExpr(p, h2, ptr, more) == HashExpr(p, h, ptr, fuel)
    decreases fuel, 0, 1
  {
    match ptr.tag
    case Nil => IndexOfPrefix(h.syms, h2.syms, "NIL");
    case Cons => ConsHashStable(p, h, h2, ptr, fuel, more);
    case Fun => FunHashStable(p, h, h2, ptr, fuel, more);
    case Thunk => ThunkHashStable(p, h, h2, ptr, fuel, more);
    case Sym => assert h2.syms[ptr.idx] == h.syms[ptr.idx];
    case Num => assert h2.nums[ptr.idx] == h.nums[ptr.idx];
    case Str => assert h2.strs[ptr.idx] == h.strs[ptr.idx];
  }

  lemma {:induction false} ConsHashStable(p: Primitives, h: Heap, h2: Heap, ptr: Ptr, fuel: nat, more: nat)
    requires h.GrowsTo(h2) && fuel <= more && ptr.tag == Tag.Cons
    requires HashExpr(p, h, ptr, fuel).Some?
    ensures HashExpr(p, h2, ptr, more) == HashExpr(p, h, ptr, fuel)
    decreases fuel, 0, 0
  {
    var pair := h.cons[ptr.idx];
    assert h2.cons[ptr.idx] == pair;
    HashPtrs2Stable(p, h, h2, pair.0, pair.1, fuel - 1, more - 1);
  }

  lemma {:induction false} FunHashStable(p: Primitives, h: Heap, h2: Heap, ptr: Ptr, fuel: nat, more: nat)
    requires h.GrowsTo(h2) && fuel <= more && ptr.tag == Tag.Fun
    requires HashExpr(p, h, ptr, fuel).Some?
    ensures HashExpr(p, h2, ptr, more) == HashExpr(p, h, ptr, fuel)
    decreases fuel, 0, 0
  {
    var fun := h.funs[ptr.idx];
    assert h2.funs[ptr.idx] == fun;
    HashPtrs3Stable(p, h, h2, fun.0, fun.1, fun.2, fuel - 1, more - 1);
  }

  lemma {:induction false} ThunkHashStable(p: Primitives, h: Heap, h2: Heap, ptr: Ptr, fuel: nat, more: nat)
    requires h.GrowsTo(h2) && fuel <= more && ptr.tag == Tag.Thunk
    requires HashExpr(p, h, ptr, fuel).Some?
    ensures HashExpr(p, h2, ptr, more) == HashExpr(p, h, ptr, fuel)
    decreases fuel, 0, 0
  {
    var t := h.thunks[ptr.idx];
    assert h2.thunks[ptr.idx] == t;
    ThunkComponentsStable(p, h, h2, t, fuel - 1, more - 1);
  }

  lemma {:induction false} HashPtrs2Stable(p: Primitives, h: Heap, h2: Heap, a: Ptr, b: Ptr, fuel: nat, more: nat)
    requires h.GrowsTo(h2) && fuel <= more
    requires HashPtrs2(p, h, a, b, fuel).Some?
    ensures HashPtrs2(p, h2, a, b, more) == HashPtrs2(p, h, a, b, fuel)
    decreases fuel, 1
  {
    HashExprStable(p, h, h2, a, fuel, more);
    HashExprStable(p, h, h2, b, fuel, more);
  }

  lemma {:induction false} HashPtrs3Stable(p: Primitives, h: Heap, h2: Heap, a: Ptr, b: Ptr, c: Ptr, fuel: nat, more: nat)
    requires h.GrowsTo(h2) && fuel <= more
    requires HashPtrs3(p, h, a, b, c, fuel).Some?
    ensures HashPtrs3(p, h2, a, b, c, more) == HashPtrs3(p, h, a, b, c, fuel)
    decreases fuel, 1
  {
    HashExprStable(p, h, h2, a, fuel, more);
    HashExprStable(p, h, h2, b, fuel, more);
    HashExprStable(p, h, h2, c, fuel, more);
  }

  lemma {:induction false} ThunkComponentsStable(p: Primitives, h: Heap, h2: Heap, t: Thunk, fuel: nat, more: nat)
    requires h.GrowsTo(h2) && fuel <= more
    requires ThunkComponents(p, h, t, fuel).Some?
    ensures ThunkComponents(p, h2, t, more) == ThunkComponents(p, h, t, fuel)
    decreases fuel, 1
  {
    HashExprStable(p, h, h2, t.value, fuel, more);
    HashContStable(p, h, h2, t.continuation, fuel, more);
  }

  /** The same stability for continuations. */
  lemma {:induction false} HashContStable(p: Primitives, h: Heap, h2: Heap, k: ContPtr, fuel: nat, more: nat)
    requires h.GrowsTo(h2) && fuel <= more
    requires HashCont(p, h, k, fuel).Some?
    ensures HashCont(p, h2, k, more) == HashCont(p, h, k, fuel)
    decreases fuel, 0
  {
    var c := h.FetchCont(k).value;
    FetchContGrows(h, h2, k);
    ContComponentsStable(p, h, h2, c, fuel - 1, more - 1);
    assert HashCont(p, h2, k, more) == Some(ScalarContPtr(ContTagValue(k.tag), p.hash8(ContComponents(p, h, c, fuel - 1).value)));
  }

  lemma {:induction false} ContComponentsStable(p: Primitives, h: Heap, h2: Heap, c: Continuation, fuel: nat, more: nat)
    requires h.GrowsTo(h2) && fuel <= more
    requires ContComponents(p, h, c, fuel).Some?
    ensures ContComponents(p, h2, c, more) == ContComponents(p, h, c, fuel)
    decreases fuel, 2
  {
    var layout := Layout(c);
    SlotRowStable(p, h, h2, layout[0], fuel, more);
    SlotRowStable(p, h, h2, layout[1], fuel, more);
    SlotRowStable(p, h, h2, layout[2], fuel, more);
    SlotRowStable(p, h, h2, layout[3], fuel, more);
  }

  lemma {:induction false} SlotRowStable(p: Primitives, h: Heap, h2: Heap, s: Slot, fuel: nat, more: nat)
    requires h.GrowsTo(h2) && fuel <= more
    requires SlotRow(p, h, s, fuel).Some?
    ensures SlotRow(p, h2, s, more) == SlotRow(p, h, s, fuel)
    decreases fuel, 1
  {
    match s
    case Zero =>
    case OpCode(_) =>
    case ExprHash(q) => HashExprStable(p, h, h2, q, fuel, more);
    case ContHash(k) => HashContStable(p, h, h2, k, fuel, more);
  }

  /** Every nil pointer hashes like the one `get_nil` returns: tag 0 and the hash of the string `"NIL"`. */
  lemma NilHash(p: Primitives, h: Heap, ptr: Ptr, fuel: nat)
    requires ptr.tag == Tag.Nil && "NIL" in h.syms && fuel > 0
    ensures HashExpr(p, h, ptr, fuel) == Some(ScalarPtr(0, StringHash(p.hash8, "NIL")))
    ensures HashExpr(p, h, ptr, fuel) == HashExpr(p, h, h.GetNil(), fuel)
  {
  }
}
