/** Values shared by every component: options, typed fields, tuples of fields and their order. */
module Base {

  datatype Option<+T> = None | Some(value: T)

  /** A field value. Integers are unbounded here; members that care about width say so. */
  datatype Field =
    | BigInt(i: int)
    | Int(i: int)
    | SmallInt(i: int)
    | Char(width: nat, s: string)
    | Str(s: string)
    | Decimal(whole: int, scale: nat)
    | Date(i: int)
    | Bool(b: bool)
    | Null

  type Row = seq<Field>

  /** An index key: a (possibly composite) list of field values. */
  type Key = seq<Field>

  /** A record id: where a row lives. */
  datatype Rid = Rid(container: int, page: Option<int>, slot: Option<int>)

  /** The field at a position; a missing one panics, and is given as Null here. */
  function At(row: Row, i: nat): (f: Field) {
    if i < |row| then row[i] else Null
  }

  /** The key of a row. */
  function ExtractKey(row: Row, cols: seq<nat>): (k: Key)
    ensures |k| == |cols|
  {
    seq(|cols|, i requires 0 <= i < |cols| => At(row, cols[i]))
  }

  ghost predicate InRange(cols: seq<nat>, width: nat) {
    forall i | 0 <= i < |cols| :: cols[i] < width
  }

  ghost predicate Total<T(!new)>(le: (T, T) -> bool) {
    && (forall a, b :: le(a, b) || le(b, a))
    && (forall a, b :: le(a, b) && le(b, a) ==> a == b)
    && (forall a, b, c :: le(a, b) && le(b, c) ==> le(a, c))
  }

  /** Lexicographic order of sequences; a proper prefix comes first. */
  predicate LexLe<T(==)>(le: (T, T) -> bool, a: seq<T>, b: seq<T>) {
    if a == [] then true
    else if b == [] then false
    else if a[0] == b[0] then LexLe(le, a[1..], b[1..])
    else le(a[0], b[0])
  }

  predicate CharLe(a: char, b: char) {
    a <= b
  }

  function Variant(f: Field): (v: int) {
    match f
    case BigInt(_) => 0
    case Int(_) => 1
    case SmallInt(_) => 2
    case Char(_, _) => 3
    case Str(_) => 4
    case Decimal(_, _) => 5
    case Date(_) => 6
    case Bool(_) => 7
    case Null => 8
  }

  /** The derived order of field values: the variant first, then its payload from left to right. */
  predicate FieldLe(a: Field, b: Field) {
    if Variant(a) != Variant(b) then Variant(a) <= Variant(b)
    else match a
      case BigInt(i) => i <= b.i
      case Int(i) => i <= b.i
      case SmallInt(i) => i <= b.i
      case Char(w, s) => if w != b.width then w <= b.width else LexLe(CharLe, s, b.s)
      case Str(s) => LexLe(CharLe, s, b.s)
      case Decimal(w, s) => if w != b.whole then w <= b.whole else s <= b.scale
      case Date(i) => i <= b.i
      case Bool(x) => x ==> b.b
      case Null => true
  }

  predicate KeyLe(a: Key, b: Key) {
    LexLe(FieldLe, a, b)
  }

  lemma {:induction false} LexTotalPair<T(!new)>(le: (T, T) -> bool, a: seq<T>, b: seq<T>)
    requires Total(le)
    ensures LexLe(le, a, b) || LexLe(le, b, a)
    ensures LexLe(le, a, b) && LexLe(le, b, a) ==> a == b
  {
    if a != [] && b != [] && a[0] == b[0] {
      LexTotalPair(le, a[1..], b[1..]);
      assert a == [a[0]] + a[1..] && b == [b[0]] + b[1..];
    }
  }

  lemma {:induction false} LexTransitive<T(!new)>(le: (T, T) -> bool, a: seq<T>, b: seq<T>, c: seq<T>)
    requires Total(le)
    requires LexLe(le, a, b) && LexLe(le, b, c)
    ensures LexLe(le, a, c)
  {
    if a != [] && a[0] == b[0] && b[0] == c[0] {
      LexTransitive(le, a[1..], b[1..], c[1..]);
    }
  }

  /** Lists of totally ordered values are totally ordered. */
  lemma LexTotal<T(!new)>(le: (T, T) -> bool)
    requires Total(le)
    ensures Total((a: seq<T>, b: seq<T>) => LexLe(le, a, b))
  {
    var lex := (a: seq<T>, b: seq<T>) => LexLe(le, a, b);
    forall a, b ensures lex(a, b) || lex(b, a) {
      LexTotalPair(le, a, b);
    }
    forall a, b | lex(a, b) && lex(b, a) ensures a == b {
      LexTotalPair(le, a, b);
    }
    forall a, b, c | lex(a, b) && lex(b, c) ensures lex(a, c) {
      LexTransitive(le, a, b, c);
    }
  }

  lemma FieldTotal()
    ensures Total(FieldLe)
  {
    forall a, b ensures FieldLe(a, b) || FieldLe(b, a) {
      FieldPair(a, b);
    }
    forall a, b | FieldLe(a, b) && FieldLe(b, a) ensures a == b {
      FieldPair(a, b);
    }
    forall a, b, c | FieldLe(a, b) && FieldLe(b, c) ensures FieldLe(a, c) {
      if (a.Str? && b.Str? && c.Str?) || (a.Char? && b.Char? && c.Char? && a.width == b.width == c.width) {
        LexTransitive(CharLe, a.s, b.s, c.s);
      }
    }
  }

  lemma FieldPair(a: Field, b: Field)
    ensures FieldLe(a, b) || FieldLe(b, a)
    ensures FieldLe(a, b) && FieldLe(b, a) ==> a == b
  {
    if (a.Str? && b.Str?) || (a.Char? && b.Char?) {
      LexTotalPair(CharLe, a.s, b.s);
    }
  }

  /** Index keys compare lexicographically, and that is a total order. */
  lemma KeyTotal()
    ensures Total(KeyLe)
  {
    FieldTotal();
    LexTotal(FieldLe);
    var lex := (a: Key, b: Key) => LexLe(FieldLe, a, b);
    assert forall a, b :: KeyLe(a, b) == lex(a, b);
  }

  predicate IntLe(a: int, b: int) {
    a <= b
  }

  /** The derived order of record ids: container, page, slot; a missing part comes before a present one. */
  predicate RidLe(a: Rid, b: Rid) {
    LexLe(IntLe, RidInts(a), RidInts(b))
  }

  /** Container, page and slot; a missing part comes before a present one. */
  function RidInts(r: Rid): (s: seq<int>) {
    [r.container] + Part(r.page) + Part(r.slot)
  }

  function Part(o: Option<int>): (s: seq<int>) {
    match o
    case None => [0, 0]
    case Some(i) => [1, i]
  }

  lemma RidTotal()
    ensures Total(RidLe)
  {
    LexTotal(IntLe);
    var lex := (a: seq<int>, b: seq<int>) => LexLe(IntLe, a, b);
    assert forall a, b :: RidLe(a, b) == lex(RidInts(a), RidInts(b));
    forall a, b | RidInts(a) == RidInts(b) ensures a == b {
      var x, y := RidInts(a), RidInts(b);
      assert x[..1] == [a.container] && y[..1] == [b.container];
      assert x[1..3] == Part(a.page) && y[1..3] == Part(b.page);
      assert x[3..] == Part(a.slot) && y[3..] == Part(b.slot);
      PartInjective(a.page, b.page);
      PartInjective(a.slot, b.slot);
    }
  }

  lemma PartInjective(a: Option<int>, b: Option<int>)
    requires Part(a) == Part(b)
    ensures a == b
  {
    assert Part(a)[0] == Part(b)[0] && Part(a)[1] == Part(b)[1];
  }

  // ------------------------------------------------------------------ text

  /** The parts of a text between its points. */
  function DotParts(s: string): (parts: seq<string>)
    ensures parts != []
  {
    if s == "" then [""]
    else
      var rest := DotParts(s[1..]);
      if s[0] == '.' then [""] + rest else [[s[0]] + rest[0]] + rest[1..]
  }

  lemma {:induction false} DotPartsNone(s: string)
    requires '.' !in s
    ensures DotParts(s) == [s]
  {
    if s != "" {
      DotPartsNone(s[1..]);
      assert s == [s[0]] + s[1..];
    }
  }

  lemma {:induction false} DotPartsOnce(a: string, b: string)
    requires '.' !in a && '.' !in b
    ensures DotParts(a + "." + b) == [a, b]
  {
    var s := a + "." + b;
    if a == "" {
      DotPartsNone(b);
      assert s[1..] == b;
    } else {
      DotPartsOnce(a[1..], b);
      assert s[1..] == a[1..] + "." + b;
      assert [a[0]] + a[1..] == a;
    }
  }
}
