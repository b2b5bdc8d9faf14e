/**
 * Properties of the store's tables that relate several operations:
 * re-interning, lookups after interning, lists, and the default store.
 */
module HeapFacts {
  import opened Options
  import opened IndexSets
  import opened Encoding
  import opened Ascii
  import opened Heaps
  import opened Stores

  /** `get_sym` finds a name right after `intern_sym` interned it, and returns the same pointer. */
  lemma GetSymAfterIntern(h: Heap, name: string)
    ensures var (h2, p) := h.InternSym(name);
      h2.GetSym(name, false) == Some(p)
  {
    var (h2, p) := h.InternSym(name);
    assert IndexOf(h2.syms, name) == Some(p.idx);
  }

  /** The same after `sym`: `get_sym` with case conversion finds the name in any spelling of its letters. */
  lemma GetSymAfterSym(h: Heap, name: string, spelling: string)
    requires ConvertSymCase(spelling) == ConvertSymCase(name)
    ensures var (h2, p) := h.InternSymWithCaseConversion(name);
      h2.GetSym(spelling, true) == Some(p)
  {
    GetSymAfterIntern(h, ConvertSymCase(name));
  }

  /** `get_str` finds a string right after `intern_str` interned it. */
  lemma GetStrAfterIntern(h: Heap, name: string)
    ensures var (h2, p) := h.InternStr(name);
      h2.GetStr(name) == Some(p)
  {
    var (h2, p) := h.InternStr(name);
    assert IndexOf(h2.strs, name) == Some(p.idx);
  }

  /** `"nil"`, `"Nil"` and `"NIL"` intern to the same pointer, tagged `Nil`, which fetches `Nil`. */
  lemma NilSpellingsIntern(h: Heap)
    ensures h.InternSymWithCaseConversion("nil") == h.InternSymWithCaseConversion("Nil")
    ensures h.InternSymWithCaseConversion("nil") == h.InternSymWithCaseConversion("NIL")
    ensures var (h2, p) := h.InternSymWithCaseConversion("nil");
      p.tag == Tag.Nil && h2.Fetch(p) == Some(Expression.Nil)
  {
    NilSpellings();
  }

  /** Any other name interns to a `Sym` pointer that fetches the name. */
  lemma InternSymOtherName(h: Heap, name: string)
    requires name != "NIL"
    ensures var (h2, p) := h.InternSym(name);
      p.tag == Tag.Sym && h2.Fetch(p) == Some(Expression.Sym(name))
  {
  }

  /** Interning into a table that already holds the content, at any later point, returns its index and changes nothing. */
  lemma ReinsertAfterGrowth<T>(s: seq<T>, t: seq<T>, x: T)
    requires InsertFull(s, x).0 <= t
    ensures InsertFull(t, x) == (t, InsertFull(s, x).1)
  {
    var (s1, i) := InsertFull(s, x);
    IndexOfPrefix(s1, t, x);
  }

  /** Re-interning a cons later returns the same pointer and leaves the tables as they are. */
  lemma ReinternCons(h: Heap, h2: Heap, car: Ptr, cdr: Ptr)
    requires h.InternCons(car, cdr).0.GrowsTo(h2)
    ensures h2.InternCons(car, cdr) == (h2, h.InternCons(car, cdr).1)
  {
    ReinsertAfterGrowth(h.cons, h2.cons, (car, cdr));
  }

  lemma ReinternNum(h: Heap, h2: Heap, n: Num)
    requires h.InternNum(n).0.GrowsTo(h2)
    ensures h2.InternNum(n) == (h2, h.InternNum(n).1)
  {
    ReinsertAfterGrowth(h.nums, h2.nums, n);
  }

  lemma ReinternSym(h: Heap, h2: Heap, name: string)
    requires h.InternSymWithCaseConversion(name).0.GrowsTo(h2)
    ensures h2.InternSymWithCaseConversion(name) == (h2, h.InternSymWithCaseConversion(name).1)
  {
    ReinsertAfterGrowth(h.syms, h2.syms, ConvertSymCase(name));
  }

  /**
   * The source's `equality` test: interning a number and a symbol, consing
   * them, and doing it all again gives the same cons pointer, the second
   * round changes nothing, and `car`/`cdr`/`car_cdr` of the two agree.
   */
  lemma {:induction false} EqualityScenario(h: Heap, n: Num, name: string)
    requires h.HasWellKnown()
    ensures
      var (h1, a) := h.InternNum(n);
      var (h2, b) := h1.InternSymWithCaseConversion(name);
      var (h3, cons1) := h2.InternCons(a, b);
      var (h4, a2) := h3.InternNum(n);
      var (h5, b2) := h4.InternSymWithCaseConversion(name);
      var (h6, cons2) := h5.InternCons(a2, b2);
      && cons1 == cons2 && h6 == h3
      && cons1.tag == Tag.Cons && cons1.idx < |h6.cons|
      && h6.Car(cons1) == h6.Car(cons2) == a
      && h6.Cdr(cons1) == h6.Cdr(cons2) == b
      && h6.CarCdr(cons1) == (h6.Car(cons1), h6.Cdr(cons1))
  {
    var (h1, a) := h.InternNum(n);
    var (h2, b) := h1.InternSymWithCaseConversion(name);
    var (h3, cons1) := h2.InternCons(a, b);
    ReinternNum(h, h3, n);
    var (h4, a2) := h3.InternNum(n);
    ReinternSym(h1, h4, name);
    var (h5, b2) := h4.InternSymWithCaseConversion(name);
    ReinternCons(h2, h5, a2, b2);
    var (h6, cons2) := h5.InternCons(a2, b2);
    assert h6 == h3 && cons2 == cons1;
    assert h3.Fetch(cons1) == Some(Expression.Cons(a, b));
  }

  /**
   * Hash-consing of conses: after interning two pairs in turn, the two
   * pointers are equal exactly when the pairs are.
   */
  lemma InternConsInjective(h: Heap, a: Ptr, b: Ptr, c: Ptr, d: Ptr)
    ensures var (h1, p) := h.InternCons(a, b);
      var (h2, q) := h1.InternCons(c, d);
      p == q <==> (a, b) == (c, d)
  {
    InsertInjective(h.cons, (a, b), (c, d));
  }

  /** `intern_list` of no elements is nil. */
  lemma InternListEmpty(h: Heap)
    requires "NIL" in h.syms
    ensures h.InternList([]) == (h, h.GetNil())
  {
    NilSpellings();
  }

  /** `intern_list([e1, ..., en])` is `cons(e1, intern_list([e2, ..., en]))`: its car is `e1`. */
  lemma InternListCar(h: Heap, elts: seq<Ptr>)
    requires elts != []
    ensures var (h2, p) := h.InternList(elts);
      p.tag == Tag.Cons && p.idx < |h2.cons|
      && h2.Car(p) == elts[0]
      && h2.IsList(h2.Cdr(p), elts[1..])
  {
    var (h2, p) := h.InternList(elts);
    assert h2.IsList(p, elts);
  }

  /** In a store without duplicates, two pointers to the same list are equal. */
  lemma {:induction false} ListUnique(h: Heap, p: Ptr, q: Ptr, elts: seq<Ptr>)
    requires h.Wf() && h.IsList(p, elts) && h.IsList(q, elts)
    ensures p == q
    decreases |elts|
  {
    if elts != [] {
      ListUnique(h, h.cons[p.idx].1, h.cons[q.idx].1, elts[1..]);
      assert h.cons[p.idx] == h.cons[q.idx];
    }
  }

  /** A pointer is the list of at most one sequence of elements. */
  lemma {:induction false} ListDecode(h: Heap, p: Ptr, elts: seq<Ptr>, others: seq<Ptr>)
    requires h.IsList(p, elts) && h.IsList(p, others)
    ensures elts == others
    decreases |elts|
  {
    if elts != [] && others != [] {
      ListDecode(h, h.cons[p.idx].1, elts[1..], others[1..]);
      assert elts == [elts[0]] + elts[1..];
      assert others == [others[0]] + others[1..];
    }
  }

  /** `simple_store` is never written, so in a valid store no `Simple` pointer dereferences. */
  lemma SimpleNeverFetched(h: Heap, k: ContPtr)
    requires h.simple == [] && k.tag == ContTag.Simple
    ensures h.FetchCont(k) == None
  {
  }

  /** Two positions of the default symbol list holding the same name are the same position. */
  lemma DefaultPosition(i: nat, j: nat)
    requires i < |DefaultSymbols| && j < |DefaultSymbols| && DefaultSymbols[i] == DefaultSymbols[j]
    ensures i == j
  {
    DefaultSymbolsDistinct();
  }

  /**
   * In a default store `get_nil` and `get_t` find the first two symbols
   * `Store::default` interns.
   */
  lemma DefaultNilAndT()
    ensures DefaultHeap().GetNil() == Ptr(Tag.Nil, 0)
    ensures DefaultHeap().GetT() == Ptr(Tag.Sym, 1)
  {
    var h := DefaultHeap();
    DefaultPosition(h.GetNil().idx, 0);
    var t := h.GetT();
    assert t.idx < |h.syms| && h.syms[t.idx] == "T";
    DefaultPosition(t.idx, 1);
  }

  /** The position of a name of the default symbol list is where `IndexOf` finds it. */
  lemma DefaultIndex(name: string, i: nat)
    requires i < |DefaultSymbols| && DefaultSymbols[i] == name
    ensures IndexOf(DefaultSymbols, name) == Some(i)
  {
    DefaultSymbolsDistinct();
    IndexOfDistinct(DefaultSymbols, i);
  }

  /** The same position in the tables of a default store. */
  lemma DefaultTablesIndex(name: string, i: nat)
    requires i < |DefaultSymbols| && DefaultSymbols[i] == name
    ensures name in DefaultHeap().syms && IndexOf(DefaultHeap().syms, name) == Some(i)
  {
    assert DefaultHeap().syms == DefaultSymbols;
    DefaultIndex(name, i);
  }

  /** In a default store `get_cont_terminal` sits at the position of `"TERMINAL"`. */
  lemma DefaultTerminal()
    ensures DefaultHeap().GetContTerminal() == ContPtr(ContTag.Terminal, 18)
  {
    DefaultTablesIndex("TERMINAL", 18);
  }

  /** In a default store `get_cont_dummy` sits at the position of `"DUMMY"`. */
  lemma DefaultDummy()
    ensures DefaultHeap().GetContDummy() == ContPtr(ContTag.Dummy, 19)
  {
    DefaultTablesIndex("DUMMY", 19);
  }

  /** In a default store `get_cont_outermost` sits at the position of `"OUTERMOST"`. */
  lemma DefaultOutermost()
    ensures DefaultHeap().GetContOutermost() == ContPtr(ContTag.Outermost, 20)
  {
    DefaultTablesIndex("OUTERMOST", 20);
  }

  /** In a default store `get_cont_error` sits at the position of `"ERROR"`. */
  lemma DefaultError()
    ensures DefaultHeap().GetContError() == ContPtr(ContTag.Error, 21)
  {
    DefaultTablesIndex("ERROR", 21);
  }
}
