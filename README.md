# Lurk store, modelled in Dafny

This project models `Store<F>` from Lurk's `src/store.rs`. The store is the heap of the Lurk language. It hash-conses expressions and continuations. There is one append-only interning table per kind of expression (cons, symbol, number, function, string, thunk) and one per kind of continuation (`simple`, `call`, `call2`, `tail`, ...). A pointer is a tag and an index into the table for that tag.

Around the tables the store has:
- symbols, which are upper-cased and where the name `"NIL"` gets the `Nil` tag;
- dereferencing (`fetch`, `fetch_cont`, `car_cdr`);
- list building;
- the well-known symbols every default store starts with;
- the 16-bit encoding shared by `Tag`, `ContTag`, `Op1`, `Op2` and `Rel2`;
- the scalar (Poseidon) hashing of expressions and continuations, and the reverse maps it fills.

The model follows the code of `src/store.rs`.

Files and modules:

- `options.dfy` (`Options`): `Option` with `:-` support.
- `index_set.dfy` (`IndexSets`): `IndexSet::insert_full` and lookup on a sequence without duplicates, where the index is the position.
- `encoding.dfy` (`Encoding`): the five enums, their `as u64` values, and the namespace nibble.
- `ascii.dfy` (`Ascii`): `convert_sym_case` (`make_ascii_uppercase`).
- `heap.dfy` (`Heaps`): the interning tables as one value, `Heap`. Each `intern_*` is a function returning the new tables and the pointer. This module also holds `fetch`, `fetch_cont`, `get_sym`, `get_str`, the `get_*` lookups, `car_cdr`/`car`/`cdr`, `intern_list`, and the invariants `Wf` (no duplicates), `Closed` (stored pointers are in range) and `GrowsTo` (append-only).
- `hashing.dfy` (`Hashing`): `hash_string` as a method with a preimage array and a loop, proved against a function. It also holds the `get_hash_components_*` row layout, and `hash_expr`/`hash_cont` as functions over the tables.
- `store.dfy` (`Stores`): the class `Store`. It holds the tables, the two reverse maps `scalar_ptr_map` and `scalar_ptr_cont_map`, and the hash primitives. Its methods update the fields in place and keep `Valid()`: no duplicates, `simple_store` empty, the well-known symbols present, and every reverse-map entry sound. `Store::default` is a loop that interns the well-known symbols. `Closed` is not part of `Valid()`, because the `intern_*` methods accept pointers from anywhere, including another store. The default store is closed, and each intern keeps a closed store closed when its arguments are in range.
- `heap_facts.dfy` (`HeapFacts`): properties that relate several operations. These are re-interning, lookups after interning, the `equality` test, list uniqueness and decoding, and the pointers of a default store.

## Model

| member | source | states |
|---|---|---|
| `IndexSets.IndexOf` | src/store.rs:674-677 | the position of a content in a table: `Some` exactly when it is present, pointing at the first occurrence |
| `IndexSets.GetIndex` | src/store.rs:890-902 | `IndexSet::get_index` inside the `fetch_*` helpers: `Some` exactly when the index is in range, holding the entry at that index |
| `IndexSets.InsertFull` | src/store.rs:632-635 | `insert_full`: the returned index holds the content; the table is unchanged exactly when the content was already there, and otherwise the content is appended at index `len`; a table without duplicates stays without duplicates |
| `IndexSets.InsertTwice` | src/store.rs:632-635 | inserting the same content a second time returns the same index and changes nothing |
| `IndexSets.InsertInjective` | src/store.rs:632-635 | two inserts in a row return the same index exactly when the contents are equal |
| `IndexSets.IndexOfPrefix` | src/store.rs:632-635 | appending to a table does not move any content already in it |
| `Encoding.TagValue` | src/store.rs:456-479 | `Tag` values are 0..6, in the namespace with nibble 0 |
| `Encoding.ContTagValue` | src/store.rs:480-512 | `ContTag` values are `0x1000` plus the variant's position, in namespace 1 |
| `Encoding.Op1Value` | src/store.rs:384-404 | `Op1` values start at `0x2000`, namespace 2 |
| `Encoding.Op2Value` | src/store.rs:406-420 | `Op2` values start at `0x3000`, namespace 3 |
| `Encoding.Rel2Value` | src/store.rs:434-445 | `Rel2` values start at `0x4000`, namespace 4 |
| `Encoding.Encode` | src/store.rs:303-314 | every value of the five enums fits in 16 bits, and its top nibble is its enum's namespace |
| `Encoding.Decode` | src/store.rs:303-314 | a 16-bit value decodes only to a code that encodes back to it |
| `Encoding.DecodeEncode` | src/store.rs:303-314 | every encoded value decodes to what it came from |
| `Encoding.EncodeInjective` | src/store.rs:303-314 | two codes share an encoding exactly when they are the same, across all five enums |
| `Encoding.TagTable` | src/store.rs:1474-1483 | the constants of the `tag_vals` test (all seven `Tag` values), and the first value of `Op1`, `Op2` and `Rel2` |
| `Encoding.ContTagTable` | src/store.rs:1485-1506 | the constants of the `cont_tag_vals` test: all seventeen `ContTag` values, `0x1000` to `0x1010` in declaration order |
| `Ascii.ToAsciiUpper` | src/store.rs:644-648 | only `a`..`z` change, by 32; the result is never a lower-case letter |
| `Ascii.ConvertSymCase` | src/store.rs:644-648 | same length; each character is upper-cased on its own |
| `Ascii.ConvertSymCaseIdempotent` | src/store.rs:644-648 | a converted name has no lower-case letter, and converting it again changes nothing |
| `Ascii.ConvertSymCaseIgnoresCase` | src/store.rs:650-655 | names that differ only in the case of ASCII letters convert to the same name |
| `Ascii.NilSpellings` | src/store.rs:620-626 | `"nil"`, `"Nil"` and `"NIL"` all convert to `"NIL"` |
| `Heaps.Heap.Fetch` | src/store.rs:890-902 | `Some` exactly when the pointer's index is in range for its tag's table (nil always), and the expression has the pointer's tag |
| `Heaps.Heap.FetchCont` | src/store.rs:904-964 | `Some` exactly when the index is in range (the four constant continuations always), with the pointer's continuation tag |
| `Heaps.Heap.StoredCont` | src/store.rs:908-960 | the entry of a continuation table, read at an index in range, carries that table's tag |
| `Heaps.Ptr.IsNil` | src/store.rs:175-177 | `Ptr::is_nil`: a pointer is nil exactly when it carries the tag of the `Nil` expression |
| `Heaps.NilPointers` | src/store.rs:175-177 | in any store, a pointer is nil exactly when it dereferences to `Nil` |
| `Heaps.ContPtr.IsError` | src/store.rs:281-283 | `ContPtr::is_error`: a continuation pointer is the error continuation exactly when it carries the tag of `Error` |
| `Heaps.ErrorPointers` | src/store.rs:281-283 | in any store, a continuation pointer is the error continuation exactly when it dereferences to `Error` |
| `Heaps.Heap.InternCons` | src/store.rs:632-635 | fetching the result gives the cons; tables only grow, no duplicates appear, a closed store stays closed, and the pointer is the only one to that cons; the store is unchanged exactly when the pair was already there; only the cons table changes |
| `Heaps.Heap.InternNum` | src/store.rs:680-683 | the same guarantees for numbers |
| `Heaps.Heap.InternFun` | src/store.rs:695-701 | the same guarantees for functions; the argument must be a symbol |
| `Heaps.Heap.InternThunk` | src/store.rs:703-706 | the same guarantees for thunks |
| `Heaps.Heap.InternStr` | src/store.rs:685-688 | the same guarantees for strings, which are stored without case conversion |
| `Heaps.Heap.InternSym` | src/store.rs:657-664 | the same guarantees for symbols; exactly the name `"NIL"` gets the `Nil` tag and fetches `Nil`, every other name gets `Sym` |
| `Heaps.SymInterned` | src/store.rs:657-664 | the symbol `"NIL"` sits in the symbol table, but its pointer is tagged `Nil` and fetches `Nil`; other names keep the `Sym` tag |
| `Heaps.Heap.InternSymWithCaseConversion` | src/store.rs:650-655 | interns the upper-cased name, with the guarantees of `intern_sym` |
| `Heaps.Heap.GetSym` | src/store.rs:666-678 | `Some` exactly when the (optionally converted) name is interned, and then it is the pointer `intern_sym` would return, with the store unchanged |
| `Heaps.Heap.GetStr` | src/store.rs:690-693 | `Some` exactly when the string is interned, and then it is the pointer `intern_str` would return, with the store unchanged |
| `Heaps.Heap.GetNil` | src/store.rs:624-626 | `get_sym("nil", true)` succeeds; the pointer is tagged `Nil` and indexes `"NIL"` |
| `Heaps.Heap.GetT` | src/store.rs:628-630 | `get_sym("t", true)` succeeds, and the pointer fetches the symbol `"T"` |
| `Heaps.Heap.GetContOutermost` | src/store.rs:712-715 | tagged `Outermost`, indexed by the position of `"OUTERMOST"`, fetches `Outermost` |
| `Heaps.Heap.GetContError` | src/store.rs:731-734 | tagged `Error`, indexed by the position of `"ERROR"`, fetches `Error` |
| `Heaps.Heap.GetContTerminal` | src/store.rs:740-743 | tagged `Terminal`, indexed by the position of `"TERMINAL"`, fetches `Terminal` |
| `Heaps.Heap.GetContDummy` | src/store.rs:749-752 | tagged `Dummy`, indexed by the position of `"DUMMY"`, fetches `Dummy` |
| `Heaps.Heap.CarCdr` | src/store.rs:966-975 | nil gives `(nil, nil)`, and a cons gives the pair it fetches; any other tag panics in the source and is excluded by the precondition |
| `Heaps.Heap.Car` | src/store.rs:602-604 | nil for nil; for a cons, the car of the fetched pair |
| `Heaps.Heap.Cdr` | src/store.rs:606-608 | nil for nil; for a cons, the cdr of the fetched pair |
| `Heaps.Heap.InternList` | src/store.rs:638-642 | the result is the list of the elements: a chain of conses through the cdrs, ending in nil; the tables only grow and gain no duplicates |
| `Heaps.Heap.InternContCall` | src/store.rs:717-720 | fetching the result gives the `Call` continuation; tables only grow, no duplicates appear, closure is kept, and the pointer is unique; unchanged exactly when already present; only the `call` table changes |
| `Heaps.Heap.InternContCall2` | src/store.rs:722-725 | the same guarantees for `Call2` |
| `Heaps.Heap.InternContLookup` | src/store.rs:754-757 | the same guarantees for `Lookup` |
| `Heaps.Heap.InternContLetStar` | src/store.rs:759-768 | the same guarantees for `LetStar` |
| `Heaps.Heap.InternContLetRecStar` | src/store.rs:770-779 | the same guarantees for `LetRecStar` |
| `Heaps.Heap.InternContUnop` | src/store.rs:781-784 | the same guarantees for `Unop` |
| `Heaps.Heap.InternContBinop` | src/store.rs:786-795 | the same guarantees for `Binop` |
| `Heaps.Heap.InternContBinop2` | src/store.rs:797-800 | the same guarantees for `Binop2` |
| `Heaps.Heap.InternContRelop` | src/store.rs:802-811 | the same guarantees for `Relop` |
| `Heaps.Heap.InternContRelop2` | src/store.rs:813-816 | the same guarantees for `Relop2` |
| `Heaps.Heap.InternContIf` | src/store.rs:818-821 | the same guarantees for `If` |
| `Heaps.Heap.InternContTail` | src/store.rs:823-826 | the same guarantees for `Tail` |
| `Heaps.OnePointerPerExpr` | src/store.rs:632-706 | hash-consing: in a store without duplicates, every expression other than nil is fetched by one pointer only |
| `Heaps.OnePointerPerCont` | src/store.rs:717-826 | hash-consing: every continuation that has a table is fetched by one pointer only |
| `Heaps.ListGrows` | src/store.rs:638-642 | a list stays the same list as the tables grow |
| `Heaps.FetchGrows` | src/store.rs:890-902 | growing the tables keeps every in-range pointer fetching the same expression |
| `Heaps.FetchContGrows` | src/store.rs:904-964 | the same for continuation pointers |
| `Heaps.ClosedAfterAddingExpr` | src/store.rs:632-706 | adding one expression whose pointers are in range keeps every stored pointer in range |
| `Heaps.ClosedAfterAddingCont` | src/store.rs:717-826 | adding one continuation whose pointers are in range keeps every stored pointer in range |
| `Heaps.NoPointersClosed` | src/store.rs:514-571 | a store whose only entries are symbols, strings and numbers stores no pointers and so is closed; the default store is such a store |
| `Heaps.NewExprIsAdded` | src/store.rs:632-706 | after an expression is interned, the only pointer that comes into range fetches that expression |
| `Heaps.NewContIsAdded` | src/store.rs:717-826 | after a continuation is interned, the only pointer that comes into range fetches that continuation |
| `Hashing.Flatten` | src/store.rs:1055-1058 | the 4x2 rows become 8 elements, row by row |
| `Hashing.Utf8Len` | src/store.rs:1258 | the byte length `s.len()` lies between the number of characters and four times that, and equals it for ASCII |
| `Hashing.Fill` | src/store.rs:1264-1269 | after one chunk, slot 0 is the running hash, slots 1.. hold the chunk, and the slots past a short chunk keep their old values |
| `Hashing.Preimages` | src/store.rs:1259-1271 | one `hash8` preimage per chunk of seven characters (rounded up), each of eight elements |
| `Hashing.StringHashEmpty` | src/store.rs:1254-1273 | the empty string hashes to 0 without calling `hash8`; any other string hashes to `hash8` of its last preimage |
| `Hashing.PreimageShape` | src/store.rs:1257-1271 | preimage `i`: slot 0 chains the previous hash (the byte length for the first), slot `j+1` holds character `7i+j`, and past the end of the string it still holds the previous chunk's character |
| `Hashing.FinishStep` | src/store.rs:1263-1271 | absorbing one chunk moves the running hash forward and leaves the final result unchanged |
| `Hashing.WriteChunk` | src/store.rs:1264-1269 | the inner loop writes exactly `Fill` of the old preimage into the array |
| `Hashing.StringHash` | src/store.rs:1254-1273 | the value of `hash_string`; the empty string gives zero |
| `Hashing.HashString` | src/store.rs:1254-1273 | the loop over chunks returns `StringHash`, the hash of the last preimage |
| `Hashing.LayoutShape` | src/store.rs:1014-1209 | each field of a continuation gets one row, in the first `Arity` rows; the rest is padding; only the four constant continuations have no fields; the child continuation takes the last used row |
| `Hashing.ScalarPtr.Row` | src/store.rs:224-228 | `into_hash_components` of a scalar pointer: the tag, then the value |
| `Hashing.ScalarContPtr.Row` | src/store.rs:255-259 | `into_hash_components` of a scalar continuation pointer: the tag, then the value |
| `Hashing.Layout` | src/store.rs:1014-1209 | the four rows of each `get_hash_components_*`, which are all padding exactly for the constant continuations |
| `Hashing.SlotRowShape` | src/store.rs:1019-1023 | one row of a preimage: padding is `[0, 0]`, an operator (`hash_op1`/`hash_op2`/`hash_rel2`, lines 1306-1316) is `(code, 0)`, and a hashed child row starts with the child's tag value and exists only for a pointer in range |
| `Hashing.HashPtrsLive` | src/store.rs:1275-1287 | `hash_ptrs_2` succeeds only when both pointers are in range, and `hash_ptrs_3` only when all three are |
| `Hashing.ThunkComponentsShape` | src/store.rs:1211-1221 | `get_hash_components_thunk`: four elements, the value's tag value first and the continuation's tag value third, and only for a value and continuation in range |
| `Hashing.ContComponents` | src/store.rs:1025-1059 | when every child hashes, the components are eight field elements |
| `Hashing.HashExpr` | src/store.rs:977-988 | a successful hash is tagged with the pointer's tag value, and the pointer is in range |
| `Hashing.HashCont` | src/store.rs:990-995 | a successful hash is tagged with the continuation tag value, and the pointer is in range |
| `Hashing.ConstantContComponents` | src/store.rs:1014-1017 | Outermost, Dummy, Terminal and Error hash eight zeros |
| `Hashing.ContComponentsShape` | src/store.rs:1183-1209 | the rows past a continuation's fields are zero, and its child continuation's hash fills the last used row; `Call`/`Call2` put the saved env in row 0 and the argument or function in row 1 |
| `Hashing.HashExprStable` | src/store.rs:977-988 | once a pointer hashes, it hashes to the same scalar pointer with more fuel and after any further interning |
| `Hashing.ConsHashStable` | src/store.rs:1238-1241 | the same for conses |
| `Hashing.FunHashStable` | src/store.rs:1233-1236 | the same for functions |
| `Hashing.ThunkHashStable` | src/store.rs:1243-1247 | the same for thunks |
| `Hashing.HashPtrs2Stable` | src/store.rs:1275-1278 | the same for `hash_ptrs_2` |
| `Hashing.HashPtrs3Stable` | src/store.rs:1280-1287 | the same for `hash_ptrs_3` |
| `Hashing.ThunkComponentsStable` | src/store.rs:1211-1221 | the same for the thunk components |
| `Hashing.HashContStable` | src/store.rs:990-995 | the same for continuations |
| `Hashing.ContComponentsStable` | src/store.rs:1025-1059 | the same for continuation components |
| `Hashing.SlotRowStable` | src/store.rs:1019-1023 | the same for one row of components |
| `Hashing.NilHash` | src/store.rs:1301-1304 | every nil pointer hashes like `get_nil()`: tag 0 and the hash of `"NIL"` |
| `Stores.DefaultHeap` | src/store.rs:514-571 | the default tables have no duplicates, hold every symbol the getters need, have an empty `simple` table, and are closed (every stored pointer in range) |
| `Stores.DefaultSymbolsConverted` | src/store.rs:541-567 | each well-known symbol, upper-cased, is the stored name at its position |
| `Stores.DefaultSymbolsDistinct` | src/store.rs:541-565 | the well-known symbols are pairwise distinct after conversion |
| `Stores.DefaultStep` | src/store.rs:565-567 | each loop step appends the next converted name |
| `Stores.DefaultTables` | src/store.rs:541-567 | the loop over the well-known symbols builds the default tables |
| `Stores.StoreGrows` | src/store.rs:997-1012 | growing the tables keeps the well-known symbols and keeps every reverse-map entry hashing to its key |
| `Stores.Store.constructor` | src/store.rs:514-571 | `Store::default`: a valid store holding the default tables, with empty reverse maps |
| `Stores.Store.InternSym` | src/store.rs:657-664 | updates the tables as `Heap.InternSym` does and keeps the store valid |
| `Stores.Store.InternSymWithCaseConversion` | src/store.rs:650-655 | the same for `Heap.InternSymWithCaseConversion` |
| `Stores.Store.Sym` | src/store.rs:598-600 | `sym` is `intern_sym_with_case_conversion` |
| `Stores.Store.InternNil` | src/store.rs:620-622 | in a valid store it changes nothing and returns `get_nil()` |
| `Stores.Store.T` | src/store.rs:582-584 | in a valid store it changes nothing and returns `get_t()` |
| `Stores.Store.InternCons` | src/store.rs:632-635 | updates the tables as `Heap.InternCons` does and keeps the store valid |
| `Stores.Store.InternList` | src/store.rs:638-642 | the loop from the last element down gives the same tables and list as `Heap.InternList` |
| `Stores.Store.InternNum` | src/store.rs:680-683 | as `Heap.InternNum`, keeping the store valid |
| `Stores.Store.InternStr` | src/store.rs:685-688 | as `Heap.InternStr`, keeping the store valid |
| `Stores.Store.InternFun` | src/store.rs:695-701 | as `Heap.InternFun`, keeping the store valid |
| `Stores.Store.InternThunk` | src/store.rs:703-706 | as `Heap.InternThunk`, keeping the store valid |
| `Stores.Store.InternContCall` | src/store.rs:717-720 | as `Heap.InternContCall`, keeping the store valid |
| `Stores.Store.InternContCall2` | src/store.rs:722-725 | as `Heap.InternContCall2`, keeping the store valid |
| `Stores.Store.InternContLookup` | src/store.rs:754-757 | as `Heap.InternContLookup`, keeping the store valid |
| `Stores.Store.InternContLetStar` | src/store.rs:759-768 | as `Heap.InternContLetStar`, keeping the store valid |
| `Stores.Store.InternContLetRecStar` | src/store.rs:770-779 | as `Heap.InternContLetRecStar`, keeping the store valid |
| `Stores.Store.InternContUnop` | src/store.rs:781-784 | as `Heap.InternContUnop`, keeping the store valid |
| `Stores.Store.InternContBinop` | src/store.rs:786-795 | as `Heap.InternContBinop`, keeping the store valid |
| `Stores.Store.InternContBinop2` | src/store.rs:797-800 | as `Heap.InternContBinop2`, keeping the store valid |
| `Stores.Store.InternContRelop` | src/store.rs:802-811 | as `Heap.InternContRelop`, keeping the store valid |
| `Stores.Store.InternContRelop2` | src/store.rs:813-816 | as `Heap.InternContRelop2`, keeping the store valid |
| `Stores.Store.InternContIf` | src/store.rs:818-821 | as `Heap.InternContIf`, keeping the store valid |
| `Stores.Store.InternContTail` | src/store.rs:823-826 | as `Heap.InternContTail`, keeping the store valid |
| `Stores.Store.CreateScalarPtr` | src/store.rs:999-1003 | the scalar pointer is the tag value and the hash; the reverse map keeps its first entry for that key (`or_insert`) |
| `Stores.Store.CreateContScalarPtr` | src/store.rs:1007-1012 | the same for continuations |
| `Stores.Store.HashExpr` | src/store.rs:977-988 | returns `Hashing.HashExpr`, records the result in the reverse map under a pointer of the same tag, overwrites no entry, and keeps the store valid |
| `Stores.Store.HashCont` | src/store.rs:990-995 | returns `Hashing.HashCont`, records it, overwrites no entry, and keeps the store valid |
| `Stores.Store.FetchScalar` | src/store.rs:845-847 | `Some` exactly when the scalar pointer was recorded |
| `Stores.Store.FetchScalarCont` | src/store.rs:849-851 | `Some` exactly when the scalar continuation pointer was recorded |
| `Stores.Store.ScalarFromParts` | src/store.rs:828-835 | `Some` exactly when a scalar pointer with these parts was recorded, and then it has these parts |
| `Stores.Store.ScalarFromPartsCont` | src/store.rs:837-843 | the same for continuations |
| `Stores.Store.FetchScalarSound` | src/store.rs:845-847 | in a valid store, a reverse lookup gives a pointer that hashes back to the scalar pointer, with a matching tag |
| `Stores.Store.FetchScalarContSound` | src/store.rs:849-851 | the same for continuations |
| `HeapFacts.GetSymAfterIntern` | src/store.rs:666-678 | after `intern_sym(n)`, `get_sym(n, false)` finds the same pointer |
| `HeapFacts.GetSymAfterSym` | src/store.rs:598-600 | after `sym(n)`, `get_sym` with conversion finds the same pointer under every spelling that converts alike |
| `HeapFacts.GetStrAfterIntern` | src/store.rs:690-693 | after `intern_str(s)`, `get_str(s)` finds the same pointer |
| `HeapFacts.NilSpellingsIntern` | src/store.rs:650-664 | `sym("nil")`, `sym("Nil")` and `sym("NIL")` give the same pointer and tables; the pointer is tagged `Nil` and fetches `Nil` |
| `HeapFacts.InternSymOtherName` | src/store.rs:657-664 | every name other than `"NIL"` is tagged `Sym` and fetches itself |
| `HeapFacts.ReinsertAfterGrowth` | src/store.rs:632-635 | inserting content already present, even after later appends, returns its first index and changes nothing |
| `HeapFacts.ReinternCons` | src/store.rs:632-635 | interning a cons again after any growth returns the same pointer and changes nothing |
| `HeapFacts.ReinternNum` | src/store.rs:680-683 | the same for numbers |
| `HeapFacts.ReinternSym` | src/store.rs:650-655 | the same for symbols through `sym` |
| `HeapFacts.EqualityScenario` | src/store.rs:1519-1535 | the `equality` test: interning a number and a symbol, consing them and doing it all again gives equal cons pointers, the second round changes nothing, and `car`/`cdr`/`car_cdr` agree |
| `HeapFacts.InternConsInjective` | src/store.rs:632-635 | two conses interned in a row get equal pointers exactly when the pairs are equal |
| `HeapFacts.InternListEmpty` | src/store.rs:638-642 | the empty list is nil, and interning it changes nothing once `"NIL"` is interned |
| `HeapFacts.InternListCar` | src/store.rs:638-642 | a non-empty list is a cons whose car is the first element and whose cdr is the list of the rest |
| `HeapFacts.ListUnique` | src/store.rs:638-642 | in a store without duplicates, a sequence of elements has at most one list pointer |
| `HeapFacts.ListDecode` | src/store.rs:966-975 | following car and cdr from a pointer recovers at most one sequence of elements |
| `HeapFacts.SimpleNeverFetched` | src/store.rs:908-911 | with the `simple` table empty, no `Simple` pointer dereferences |
| `HeapFacts.DefaultNilAndT` | src/store.rs:624-630 | in a default store the getters do not panic: `get_nil` is the `Nil` pointer and `get_t` the `Sym` pointer at the model symbol table's positions 0 and 1 of `"NIL"` and `"T"` |
| `HeapFacts.DefaultTablesIndex` | src/store.rs:541-567 | each well-known name sits at its list position in the model's default symbol table |
| `HeapFacts.DefaultTerminal` | src/store.rs:740-743 | in a default store `get_cont_terminal` does not panic and is the `Terminal` pointer at `"TERMINAL"`'s position 18 in the model's symbol table |
| `HeapFacts.DefaultDummy` | src/store.rs:749-752 | in a default store `get_cont_dummy` does not panic and is the `Dummy` pointer at `"DUMMY"`'s position 19 in the model's symbol table |
| `HeapFacts.DefaultOutermost` | src/store.rs:712-715 | in a default store `get_cont_outermost` does not panic and is the `Outermost` pointer at `"OUTERMOST"`'s position 20 in the model's symbol table |
| `HeapFacts.DefaultError` | src/store.rs:731-734 | in a default store `get_cont_error` does not panic and is the `Error` pointer at `"ERROR"`'s position 21 in the model's symbol table |

## Left out

- Poseidon: `hash4`, `hash6` and `hash8` (neptune with its lazily built constants) are uninterpreted function parameters of `Primitives`.
- Field arithmetic: elements of `F` are `int`. Nothing in the modelled code does arithmetic on them.
- `Num::into_scalar` is the parameter `numScalar`, because `crate::Num` is not part of this model. A number is a wrapped `int`.
- `hydrate_scalar_cache` is not modelled. It is parallel cache warming with rayon plus console output.
- Concurrency: `dashmap` and the `PoseidonCache` memoisation are not modelled. The reverse maps are sequential maps where the first writer wins, and the cache is not modelled at all.
- `string_interner`: symbol ids are positions in a sequence without duplicates. `BufferBackend` and `SymbolUsize` conversions are not modelled. The program's symbol ids are offsets into the backend's buffer, not consecutive positions, so the concrete indices of symbol, nil and constant-continuation pointers in the model (such as `T` at 1 or `TERMINAL` at 18) are not the program's; only their tags, and that equal names give equal indices, carry over.
- The `usize` bound on `RawPtr` indices is not modelled; indices are `nat`.
- `Display`, `fmt` and the `fmt_to_string` test are not modelled, because `crate::writer` is not part of this model.
- `Expression::is_keyword_sym`, `as_str` and `as_sym_str` are not modelled: they are accessors outside the store's tables.
- `hash_op1`, `hash_op2` and `hash_rel2` are not separate members. The row `(op.as_field(), 0)` they build is an `OpCode` slot of `Hashing.Layout`, which `Hashing.SlotRow` turns into that row.
- The aliases `nil`, `cons`, `list` and `num` are modelled by the methods they call. So are the pass-throughs `intern_cont_outermost`/`error`/`terminal`/`dummy` (modelled by the `get_cont_*` functions) and the `fetch_*` helpers (modelled inside `Fetch`).
- `Hashing.HashExpr`: the mutual recursion of `hash_expr` and `hash_cont` runs over a store that may contain cycles, so the model takes a `fuel` bound. Running out of fuel gives `None`, which the source never returns for that reason. The stability lemmas show that more fuel never changes a result.
- `Hashing.HashExpr`: `hash_nil` panics through `get_nil` when `"NIL"` is not interned. The model returns `None` there instead, and a valid store always has `"NIL"`.
- `Stores.Store.HashExpr`: records only the root's scalar pointer in the reverse map. The source also records every sub-expression it hashes on the way.
- `Stores.Store.HashCont`: records only the root continuation's scalar pointer, for the same reason.
- `Heaps.Heap.CarCdr`: `car_cdr` on a tag other than nil or cons panics, and so does a cons pointer out of range. On nil it panics through `get_nil`'s `expect` when `"NIL"` is not interned. All three are preconditions here.
- `Heaps.Heap.InternFun`: the source's `assert!` that the argument is a symbol is a precondition.
- Fetching the same pointer twice gives equal results (the `store` test) holds because `Heap.Fetch` is a function. No separate member states it.
