/** `sorted(listing, key=natural_sort)`: the stable sort by the natural-sort key. */
module NaturalSort {
  import opened NaturalKey
  import opened KeyOrder
  import opened StableSort

  function SortNames(names: seq<string>): (sorted: seq<string>)
    ensures |sorted| == |names|
  {
    Sort(names, NameLe)
  }

  /** The natural order is a total preorder whose ties are the names with equal keys. */
  lemma NaturalOrderIsKeyPreorder()
    ensures IsKeyPreorder(NameLe, Key)
  {
    forall x, y ensures NameLe(x, y) || NameLe(y, x) {
      NameLeTotal(x, y);
    }
    forall x, y, z | NameLe(x, y) && NameLe(y, z) ensures NameLe(x, z) {
      NameLeTransitive(x, y, z);
    }
    forall x, y ensures NameLe(x, y) && NameLe(y, x) <==> Key(x) == Key(y) {
      NameTie(x, y);
    }
  }

  /**
   * The sorted listing is a permutation of the listing, in natural order,
   * with names of equal key (such as "A1.mgf" and "a01.mgf") in listing order.
   */
  lemma SortNamesIsStableSort(names: seq<string>)
    ensures multiset(SortNames(names)) == multiset(names)
    ensures Sorted(SortNames(names), NameLe)
    ensures Stable(names, SortNames(names), Key)
  {
    NaturalOrderIsKeyPreorder();
    SortIsSortedPermutation(names, NameLe, Key);
    SortIsStable(names, NameLe, Key);
  }

  /** sorted(["a2.mgf", "a10.mgf", "a1.mgf"], key=natural_sort) */
  lemma NaturalOrderExample()
    ensures SortNames(["a2.mgf", "a10.mgf", "a1.mgf"]) == ["a1.mgf", "a2.mgf", "a10.mgf"]
  {
    KeyOfA1();
    KeyOfA2();
    KeyOfA10();
    SortThree("a2.mgf", "a10.mgf", "a1.mgf", 2, 10, 1);
  }

  /** Three names a<m>.mgf, a<n>.mgf, a<p>.mgf with p < m < n sort as the third, first, second. */
  lemma SortThree(x: string, y: string, z: string, m: nat, n: nat, p: nat)
    requires Key(x) == [Text("a"), Num(m), Text(".mgf")]
    requires Key(y) == [Text("a"), Num(n), Text(".mgf")]
    requires Key(z) == [Text("a"), Num(p), Text(".mgf")]
    requires p < m < n
    ensures SortNames([x, y, z]) == [z, x, y]
  {
    NumberedKeysCompare(p, n);
    NumberedKeysCompare(n, p);
    NumberedKeysCompare(m, p);
    NumberedKeysCompare(m, n);
    InsertThree(x, y, z);
  }

  lemma InsertThree(x: string, y: string, z: string)
    requires NameLe(z, y) && !NameLe(y, z) && NameLe(x, y) && !NameLe(x, z)
    ensures Sort([x, y, z], NameLe) == [z, x, y]
  {
    assert Sort([z], NameLe) == [z];
    assert Insert(y, [z], NameLe) == [z] + Insert(y, [], NameLe) == [z, y];
    assert [y, z][1..] == [z];
    assert Sort([y, z], NameLe) == [z, y];
    assert Insert(x, [y], NameLe) == [x, y];
    assert [z, y][1..] == [y];
    assert Insert(x, [z, y], NameLe) == [z] + Insert(x, [y], NameLe);
    assert [x, y, z][1..] == [y, z];
  }
}
