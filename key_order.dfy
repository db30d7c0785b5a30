/**
 * How Python compares two natural-sort keys: lists element by element,
 * strings code point by code point, integers by value. Comparing a string
 * with an integer raises TypeError, written here as `None`.
 */
module KeyOrder {
  import opened Wrappers
  import opened NaturalKey

  datatype Ordering = Less | Equal | Greater {
    function Flip(): Ordering
    {
      match this
      case Less => Greater
      case Equal => Equal
      case Greater => Less
    }
  }

  function FlipOption(o: Option<Ordering>): Option<Ordering>
  {
    match o
    case None => None
    case Some(x) => Some(x.Flip())
  }

  function CompareInt(a: int, b: int): Ordering
  {
    if a < b then Less else if b < a then Greater else Equal
  }

  /** `str` comparison: the first differing code point decides; a proper prefix comes first. */
  function CompareText(a: string, b: string): Ordering
  {
    if a == [] || b == [] then CompareInt(|a|, |b|)
    else if a[0] < b[0] then Less
    else if b[0] < a[0] then Greater
    else CompareText(a[1..], b[1..])
  }

  /** One element of a key against another; a string against an integer is a TypeError. */
  function ComparePiece(a: Piece, b: Piece): Option<Ordering>
  {
    match (a, b)
    case (Text(x), Text(y)) => Some(CompareText(x, y))
    case (Num(x), Num(y)) => Some(CompareInt(x, y))
    case _ => None
  }

  /**
   * `list` comparison: the first pair of elements that are not equal decides,
   * with `<` on that pair (which raises for a string against an integer);
   * when one list runs out, the shorter one comes first.
   */
  function CompareKeys(a: seq<Piece>, b: seq<Piece>): Option<Ordering>
  {
    if a == [] || b == [] then Some(CompareInt(|a|, |b|))
    else
      match ComparePiece(a[0], b[0])
      case None => None
      case Some(Equal) => CompareKeys(a[1..], b[1..])
      case Some(o) => Some(o)
  }

  predicate IsLe(o: Option<Ordering>) { o == Some(Less) || o == Some(Equal) }

  /** `natural_sort(x) < natural_sort(y)`, the only comparison `sorted` makes. */
  predicate NameLess(x: string, y: string)
  {
    CompareKeys(Key(x), Key(y)) == Some(Less)
  }

  /** `x` may come before `y` in the sorted listing. */
  predicate NameLe(x: string, y: string)
  {
    IsLe(CompareKeys(Key(x), Key(y)))
  }

  // ---------------------------------------------------------------------
  // Strings and pieces

  lemma {:induction false} TextEqual(a: string, b: string)
    ensures CompareText(a, b) == Equal <==> a == b
    decreases |a|
  {
    if a != [] && b != [] && a[0] == b[0] {
      TextEqual(a[1..], b[1..]);
      assert a == [a[0]] + a[1..] && b == [b[0]] + b[1..];
    }
  }

  lemma {:induction false} TextFlip(a: string, b: string)
    ensures CompareText(b, a) == CompareText(a, b).Flip()
    decreases |a|
  {
    if a != [] && b != [] && a[0] == b[0] {
      TextFlip(a[1..], b[1..]);
    }
  }

  lemma {:induction false} TextLessTransitive(a: string, b: string, c: string)
    requires CompareText(a, b) == Less && CompareText(b, c) == Less
    ensures CompareText(a, c) == Less
    decreases |a|
  {
    if a != [] && b != [] && c != [] && a[0] == b[0] && b[0] == c[0] {
      TextLessTransitive(a[1..], b[1..], c[1..]);
    }
  }

  lemma PieceEqual(a: Piece, b: Piece)
    ensures ComparePiece(a, b) == Some(Equal) <==> a == b
  {
    if a.Text? && b.Text? { TextEqual(a.text, b.text); }
  }

  lemma PieceFlip(a: Piece, b: Piece)
    ensures ComparePiece(b, a) == FlipOption(ComparePiece(a, b))
  {
    if a.Text? && b.Text? { TextFlip(a.text, b.text); }
  }

  lemma PieceLessTransitive(a: Piece, b: Piece, c: Piece)
    requires ComparePiece(a, b) == Some(Less) && ComparePiece(b, c) == Some(Less)
    ensures ComparePiece(a, c) == Some(Less)
  {
    if a.Text? { TextLessTransitive(a.text, b.text, c.text); }
  }

  // ---------------------------------------------------------------------
  // Keys

  /** Two keys compare equal exactly when they are the same list. */
  lemma {:induction false} KeysEqual(a: seq<Piece>, b: seq<Piece>)
    ensures CompareKeys(a, b) == Some(Equal) <==> a == b
    decreases |a|
  {
    if a != [] && b != [] {
      PieceEqual(a[0], b[0]);
      if a[0] == b[0] {
        KeysEqual(a[1..], b[1..]);
        assert a == [a[0]] + a[1..] && b == [b[0]] + b[1..];
      }
    }
  }

  /** Swapping the operands flips the answer, and a TypeError stays a TypeError. */
  lemma {:induction false} KeysFlip(a: seq<Piece>, b: seq<Piece>)
    ensures CompareKeys(b, a) == FlipOption(CompareKeys(a, b))
    decreases |a|
  {
    if a != [] && b != [] {
      PieceFlip(a[0], b[0]);
      if ComparePiece(a[0], b[0]) == Some(Equal) {
        KeysFlip(a[1..], b[1..]);
      }
    }
  }

  /** "Comes no later than" is transitive on keys. */
  lemma {:induction false} KeysLeTransitive(a: seq<Piece>, b: seq<Piece>, c: seq<Piece>)
    requires IsLe(CompareKeys(a, b)) && IsLe(CompareKeys(b, c))
    ensures IsLe(CompareKeys(a, c))
    decreases |a|
  {
    if a != [] && b != [] && c != [] {
      var ab, bc := ComparePiece(a[0], b[0]), ComparePiece(b[0], c[0]);
      PieceEqual(a[0], b[0]);
      PieceEqual(b[0], c[0]);
      if ab == Some(Equal) && bc == Some(Equal) {
        KeysLeTransitive(a[1..], b[1..], c[1..]);
      } else if ab == Some(Less) && bc == Some(Less) {
        PieceLessTransitive(a[0], b[0], c[0]);
      }
    }
  }

  /** Keys whose pieces have matching kinds position by position. */
  predicate SameKinds(a: seq<Piece>, b: seq<Piece>)
  {
    forall i :: 0 <= i < |a| && i < |b| ==> a[i].Text? == b[i].Text?
  }

  /** Keys with matching kinds never make Python compare a string with an integer. */
  lemma {:induction false} SameKindsCompare(a: seq<Piece>, b: seq<Piece>)
    requires SameKinds(a, b)
    ensures CompareKeys(a, b).Some?
    decreases |a|
  {
    if a != [] && b != [] && ComparePiece(a[0], b[0]) == Some(Equal) {
      assert SameKinds(a[1..], b[1..]) by {
        forall i | 0 <= i < |a| - 1 && i < |b| - 1 ensures a[1..][i].Text? == b[1..][i].Text? {
          assert a[1..][i] == a[i + 1] && b[1..][i] == b[i + 1];
        }
      }
      SameKindsCompare(a[1..], b[1..]);
    }
  }

  /** Sorting by `natural_sort` never raises: any two keys are comparable. */
  lemma KeysComparable(x: string, y: string)
    ensures CompareKeys(Key(x), Key(y)).Some?
  {
    KeyAlternates(x);
    KeyAlternates(y);
    SameKindsCompare(Key(x), Key(y));
  }

  // ---------------------------------------------------------------------
  // The order on names: a total preorder

  lemma NameLeReflexive(x: string)
    ensures NameLe(x, x)
  {
    KeysEqual(Key(x), Key(x));
  }

  lemma NameLeTotal(x: string, y: string)
    ensures NameLe(x, y) || NameLe(y, x)
  {
    KeysComparable(x, y);
    KeysFlip(Key(x), Key(y));
  }

  lemma NameLeTransitive(x: string, y: string, z: string)
    requires NameLe(x, y) && NameLe(y, z)
    ensures NameLe(x, z)
  {
    KeysLeTransitive(Key(x), Key(y), Key(z));
  }

  /** Two names are tied, each no later than the other, exactly when their keys are equal. */
  lemma NameTie(x: string, y: string)
    ensures NameLe(x, y) && NameLe(y, x) <==> Key(x) == Key(y)
  {
    KeysEqual(Key(x), Key(y));
    KeysEqual(Key(y), Key(x));
    KeysFlip(Key(x), Key(y));
  }

  /** `x` may come before `y` exactly when `y < x` is false, which is what `sorted` tests. */
  lemma NameLeIsNotLess(x: string, y: string)
    ensures NameLe(x, y) <==> !NameLess(y, x)
  {
    KeysComparable(x, y);
    KeysFlip(Key(x), Key(y));
  }

  // ---------------------------------------------------------------------
  // Examples

  /** "a2.mgf" sorts before "a10.mgf", although as plain strings it comes after. */
  lemma NumericNotLexical()
    ensures NameLess("a2.mgf", "a10.mgf")
    ensures CompareText("a2.mgf", "a10.mgf") == Greater
  {
    KeyOfA2();
    KeyOfA10();
    NumberedKeysCompare(2, 10);
    assert CompareText("2.mgf", "10.mgf") == Greater;
  }

  /** Keys of the form a<n>.mgf compare by n. */
  lemma NumberedKeysCompare(m: nat, n: nat)
    ensures CompareKeys([Text("a"), Num(m), Text(".mgf")], [Text("a"), Num(n), Text(".mgf")])
         == Some(CompareInt(m, n))
  {
    var km: seq<Piece> := [Text("a"), Num(m), Text(".mgf")];
    var kn: seq<Piece> := [Text("a"), Num(n), Text(".mgf")];
    assert CompareText("a", "a") == Equal;
    assert km[1..] == [Num(m), Text(".mgf")] && kn[1..] == [Num(n), Text(".mgf")];
    if m == n {
      KeysEqual(km, kn);
    }
  }

  lemma KeyOfA1()
    ensures Key("a1.mgf") == [Text("a"), Num(1), Text(".mgf")]
  {
    assert DecimalValue("1") == 1;
    KeyOfDigits("a1.mgf", "1", 1);
  }

  lemma KeyOfA2()
    ensures Key("a2.mgf") == [Text("a"), Num(2), Text(".mgf")]
  {
    assert DecimalValue("2") == 2;
    KeyOfDigits("a2.mgf", "2", 2);
  }

  lemma KeyOfA10()
    ensures Key("a10.mgf") == [Text("a"), Num(10), Text(".mgf")]
  {
    var d := "10";
    assert DecimalValue(d) == 10 by {
      assert d[..1] == "1";
      assert DecimalValue("1") == 1;
    }
    KeyOfDigits("a10.mgf", d, 10);
  }

  lemma KeyOfDigits(name: string, d: string, n: nat)
    requires name == "a" + d + ".mgf" && IsDigitString(d) && DecimalValue(d) == n
    ensures Key(name) == [Text("a"), Num(n), Text(".mgf")]
  {
    assert Lower("a") == "a" && Lower(".mgf") == ".mgf";
    KeyOfThreeParts(name, "a", d, ".mgf");
  }
}
