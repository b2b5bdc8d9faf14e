/**
 * The 16-bit encodings of expression tags, continuation tags and operators.
 * Each value is `[typ][value]`: a 4-bit namespace nibble above a 12-bit field,
 * with namespace 0 for `Tag`, 1 for `ContTag`, 2 for `Op1`, 3 for `Op2` and 4
 * for `Rel2`. Within an enum the variants count up from the namespace base in
 * declaration order, as Rust assigns implicit discriminants.
 */
module Encoding {
  import opened Options

  datatype Tag = Nil | Cons | Sym | Fun | Num | Thunk | Str

  datatype ContTag =
    | Outermost | Simple | Call | Call2 | Tail | Error | Lookup | Unop | Binop
    | Binop2 | Relop | Relop2 | If | LetStar | LetRecStar | Dummy | Terminal

  datatype Op1 = Car | Cdr | Atom

  datatype Op2 = Sum | Diff | Product | Quotient | Cons

  datatype Rel2 = Equal | NumEqual

  /** Width of the value field below the namespace nibble. */
  const FieldSpan: nat := 0x1000

  /** Position of a `Tag` variant in its declaration. */
  function TagOrdinal(t: Tag): nat {
    match t
    case Nil => 0
    case Cons => 1
    case Sym => 2
    case Fun => 3
    case Num => 4
    case Thunk => 5
    case Str => 6
  }

  /** Position of a `ContTag` variant in its declaration. */
  function ContTagOrdinal(t: ContTag): nat {
    match t
    case Outermost => 0
    case Simple => 1
    case Call => 2
    case Call2 => 3
    case Tail => 4
    case Error => 5
    case Lookup => 6
    case Unop => 7
    case Binop => 8
    case Binop2 => 9
    case Relop => 10
    case Relop2 => 11
    case If => 12
    case LetStar => 13
    case LetRecStar => 14
    case Dummy => 15
    case Terminal => 16
  }

  function Op1Ordinal(o: Op1): nat {
    match o
    case Car => 0
    case Cdr => 1
    case Atom => 2
  }

  function Op2Ordinal(o: Op2): nat {
    match o
    case Sum => 0
    case Diff => 1
    case Product => 2
    case Quotient => 3
    case Cons => 4
  }

  function Rel2Ordinal(r: Rel2): nat {
    match r
    case Equal => 0
    case NumEqual => 1
  }

  /** `Tag as u64`, which `Tag::as_field` and `tag_field` lift into the field. */
  function TagValue(t: Tag): (v: nat)
    ensures v < 7 && v / FieldSpan == 0
  {
    TagOrdinal(t)
  }

  /** `ContTag as u64`: `Outermost` is `0b0001_0000_0000_0000`. */
  function ContTagValue(t: ContTag): (v: nat)
    ensures 0x1000 <= v <= 0x1010 && v / FieldSpan == 1
  {
    0x1000 + ContTagOrdinal(t)
  }

  /** `Op1 as u64`: `Car` is `0b0010_0000_0000_0000`. */
  function Op1Value(o: Op1): (v: nat)
    ensures 0x2000 <= v <= 0x2002 && v / FieldSpan == 2
  {
    0x2000 + Op1Ordinal(o)
  }

  /** `Op2 as u64`: `Sum` is `0b0011_0000_0000_0000`. */
  function Op2Value(o: Op2): (v: nat)
    ensures 0x3000 <= v <= 0x3004 && v / FieldSpan == 3
  {
    0x3000 + Op2Ordinal(o)
  }

  /** `Rel2 as u64`: `Equal` is `0b0100_0000_0000_0000`. */
  function Rel2Value(r: Rel2): (v: nat)
    ensures 0x4000 <= v <= 0x4001 && v / FieldSpan == 4
  {
    0x4000 + Rel2Ordinal(r)
  }

  /** Any value of the shared 16-bit namespace. */
  datatype Code =
    | TagCode(tag: Tag)
    | ContCode(contTag: ContTag)
    | Op1Code(op1: Op1)
    | Op2Code(op2: Op2)
    | Rel2Code(rel2: Rel2)

  /** The namespace nibble each enum is assigned. */
  function Namespace(c: Code): nat {
    match c
    case TagCode(_) => 0
    case ContCode(_) => 1
    case Op1Code(_) => 2
    case Op2Code(_) => 3
    case Rel2Code(_) => 4
  }

  function Encode(c: Code): (v: nat)
    ensures v < 0x1_0000
    ensures v / FieldSpan == Namespace(c)
  {
    match c
    case TagCode(t) => TagValue(t)
    case ContCode(t) => ContTagValue(t)
    case Op1Code(o) => Op1Value(o)
    case Op2Code(o) => Op2Value(o)
    case Rel2Code(r) => Rel2Value(r)
  }

  /** Reads a 16-bit value back: the namespace nibble picks the enum, the field the variant. */
  function Decode(v: nat): (r: Option<Code>)
    ensures r.Some? ==> Encode(r.value) == v
  {
    var ns, k := v / FieldSpan, v % FieldSpan;
    if ns == 0 then
      if k == 0 then Some(TagCode(Tag.Nil))
      else if k == 1 then Some(TagCode(Tag.Cons))
      else if k == 2 then Some(TagCode(Tag.Sym))
      else if k == 3 then Some(TagCode(Tag.Fun))
      else if k == 4 then Some(TagCode(Tag.Num))
      else if k == 5 then Some(TagCode(Tag.Thunk))
      else if k == 6 then Some(TagCode(Tag.Str))
      else None
    else if ns == 1 then
      if k == 0 then Some(ContCode(Outermost))
      else if k == 1 then Some(ContCode(Simple))
      else if k == 2 then Some(ContCode(ContTag.Call))
      else if k == 3 then Some(ContCode(Call2))
      else if k == 4 then Some(ContCode(Tail))
      else if k == 5 then Some(ContCode(ContTag.Error))
      else if k == 6 then Some(ContCode(Lookup))
      else if k == 7 then Some(ContCode(Unop))
      else if k == 8 then Some(ContCode(Binop))
      else if k == 9 then Some(ContCode(Binop2))
      else if k == 10 then Some(ContCode(Relop))
      else if k == 11 then Some(ContCode(Relop2))
      else if k == 12 then Some(ContCode(If))
      else if k == 13 then Some(ContCode(LetStar))
      else if k == 14 then Some(ContCode(LetRecStar))
      else if k == 15 then Some(ContCode(Dummy))
      else if k == 16 then Some(ContCode(Terminal))
      else None
    else if ns == 2 then
      if k == 0 then Some(Op1Code(Car))
      else if k == 1 then Some(Op1Code(Cdr))
      else if k == 2 then Some(Op1Code(Atom))
      else None
    else if ns == 3 then
      if k == 0 then Some(Op2Code(Sum))
      else if k == 1 then Some(Op2Code(Diff))
      else if k == 2 then Some(Op2Code(Product))
      else if k == 3 then Some(Op2Code(Quotient))
      else if k == 4 then Some(Op2Code(Op2.Cons))
      else None
    else if ns == 4 then
      if k == 0 then Some(Rel2Code(Equal))
      else if k == 1 then Some(Rel2Code(NumEqual))
      else None
    else None
  }

  /** Every encoded value decodes to the value it came from. */
  lemma DecodeEncode(c: Code)
    ensures Decode(Encode(c)) == Some(c)
  {
    match c
    case TagCode(t) =>
    case ContCode(t) =>
    case Op1Code(o) =>
    case Op2Code(o) =>
    case Rel2Code(r) =>
  }

  /** No two variants of any of the five enums share an encoding. */
  lemma EncodeInjective(c: Code, d: Code)
    ensures Encode(c) == Encode(d) <==> c == d
  {
    if Encode(c) == Encode(d) {
      DecodeEncode(c);
      DecodeEncode(d);
    }
  }

  /** The values the `tag_vals` test pins down, and the base of each operator enum. */
  lemma TagTable()
    ensures TagValue(Tag.Nil) == 0 && TagValue(Tag.Cons) == 1 && TagValue(Tag.Sym) == 2
    ensures TagValue(Tag.Fun) == 3 && TagValue(Tag.Num) == 4 && TagValue(Tag.Thunk) == 5
    ensures TagValue(Tag.Str) == 6
    ensures Op1Value(Car) == 0x2000 && Op2Value(Sum) == 0x3000 && Rel2Value(Equal) == 0x4000
  {
  }

  /** The seventeen values the `cont_tag_vals` test pins down. */
  lemma ContTagTable()
    ensures ContTagValue(Outermost) == 0x1000 && ContTagValue(Simple) == 0x1001
    ensures ContTagValue(ContTag.Call) == 0x1002 && ContTagValue(Call2) == 0x1003
    ensures ContTagValue(Tail) == 0x1004 && ContTagValue(ContTag.Error) == 0x1005
    ensures ContTagValue(Lookup) == 0x1006 && ContTagValue(Unop) == 0x1007
    ensures ContTagValue(Binop) == 0x1008 && ContTagValue(Binop2) == 0x1009
    ensures ContTagValue(Relop) == 0x100A && ContTagValue(Relop2) == 0x100B
    ensures ContTagValue(If) == 0x100C && ContTagValue(LetStar) == 0x100D
    ensures ContTagValue(LetRecStar) == 0x100E && ContTagValue(Dummy) == 0x100F
    ensures ContTagValue(Terminal) == 0x1010
  {
  }
}
