/**
 * The natural-sort key of a file name (`natural_sort` in src/merge_mgf.py).
 *
 * The name is split on maximal runs of the ASCII digits 0-9, as
 * `re.split('([0-9]+)', name)` does; every piece that is a digit string
 * becomes its integer value and every other piece is lower-cased.
 */
module NaturalKey {

  /** One element of a key: lower-cased text, or the value of a digit run. */
  datatype Piece = Text(text: string) | Num(value: nat)

  predicate IsDigit(c: char) { '0' <= c <= '9' }

  predicate IsUpper(c: char) { 'A' <= c <= 'Z' }

  predicate NoDigits(s: string) { forall i :: 0 <= i < |s| ==> !IsDigit(s[i]) }

  predicate AllDigits(s: string) { forall i :: 0 <= i < |s| ==> IsDigit(s[i]) }

  predicate NoUpper(s: string) { forall i :: 0 <= i < |s| ==> !IsUpper(s[i]) }

  /** `str.isdigit` on ASCII text: non-empty and made of 0-9 only. */
  predicate IsDigitString(s: string) { |s| > 0 && AllDigits(s) }

  /** `str.lower` on one ASCII character; every other character is kept. */
  function LowerChar(c: char): (d: char)
    ensures !IsUpper(d)
    ensures IsDigit(d) == IsDigit(c)
    ensures !IsUpper(c) ==> d == c
  {
    if IsUpper(c) then (c as int - 'A' as int + 'a' as int) as char else c
  }

  function Lower(s: string): (r: string)
    ensures |r| == |s| && NoUpper(r)
  {
    seq(|s|, i requires 0 <= i < |s| => LowerChar(s[i]))
  }

  /** Length of the longest prefix of `s` that holds no digit. */
  function TextRunLength(s: string): (n: nat)
    ensures n <= |s| && forall k :: 0 <= k < n ==> !IsDigit(s[k])
    ensures n < |s| ==> IsDigit(s[n])
  {
    if s == [] || IsDigit(s[0]) then 0 else 1 + TextRunLength(s[1..])
  }

  /** Length of the longest prefix of `s` made of digits. */
  function DigitRunLength(s: string): (n: nat)
    ensures n <= |s| && forall k :: 0 <= k < n ==> IsDigit(s[k])
    ensures n < |s| ==> !IsDigit(s[n])
  {
    if s == [] || !IsDigit(s[0]) then 0 else 1 + DigitRunLength(s[1..])
  }

  /** The pieces joined back together. */
  function Concat(parts: seq<string>): string
  {
    if parts == [] then [] else parts[0] + Concat(parts[1..])
  }

  /**
   * What `re.split` with a capturing digit-run pattern returns: digit-free
   * text, then any number of (non-empty digit run, digit-free text) pairs,
   * where the text between two runs is never empty (so the runs are maximal).
   */
  predicate IsRunDecomposition(parts: seq<string>)
    decreases |parts|
  {
    && |parts| >= 1
    && NoDigits(parts[0])
    && (|parts| > 1 ==>
          && |parts| >= 3
          && IsDigitString(parts[1])
          && (|parts| > 3 ==> parts[2] != [])
          && IsRunDecomposition(parts[2..]))
  }

  /** `re.split('([0-9]+)', s)`. */
  function Split(s: string): (parts: seq<string>)
    ensures |parts| % 2 == 1
    decreases |s|
  {
    var i := TextRunLength(s);
    if i == |s| then [s]
    else
      var j := i + DigitRunLength(s[i..]);
      [s[..i], s[i..j]] + Split(s[j..])
  }

  function DigitValue(c: char): (d: nat)
    requires IsDigit(c)
    ensures d < 10
  {
    c as int - '0' as int
  }

  function Pow10(k: nat): (p: nat)
    ensures p >= 1
  {
    if k == 0 then 1 else 10 * Pow10(k - 1)
  }

  /** `int(t)` for a string of ASCII digits (leading zeros allowed). */
  function DecimalValue(t: string): (v: nat)
    requires AllDigits(t)
    ensures v < Pow10(|t|)
  {
    if t == [] then 0 else 10 * DecimalValue(t[..|t| - 1]) + DigitValue(t[|t| - 1])
  }

  function DigitChar(d: nat): (c: char)
    requires d < 10
    ensures IsDigit(c) && DigitValue(c) == d
  {
    ('0' as int + d) as char
  }

  /** `str(n)`: the decimal digits of `n`, without leading zeros. */
  function DecimalString(n: nat): (s: string)
    ensures IsDigitString(s)
    ensures |s| > 1 ==> s[0] != '0'
  {
    if n < 10 then [DigitChar(n)] else DecimalString(n / 10) + [DigitChar(n % 10)]
  }

  /** One element of the list comprehension in `natural_sort`. */
  function PieceOf(t: string): (p: Piece)
    ensures p.Num? <==> IsDigitString(t)
    ensures p.Text? ==> |p.text| == |t| && NoUpper(p.text)
  {
    if IsDigitString(t) then Num(DecimalValue(t)) else Text(Lower(t))
  }

  /** The list comprehension of `natural_sort`, over the pieces of the split. */
  function Pieces(parts: seq<string>): (key: seq<Piece>)
    ensures |key| == |parts|
    ensures forall i :: 0 <= i < |parts| ==> key[i] == PieceOf(parts[i])
  {
    if parts == [] then [] else [PieceOf(parts[0])] + Pieces(parts[1..])
  }

  /** `natural_sort(name)`. */
  function Key(name: string): (key: seq<Piece>)
    ensures |key| == |Split(name)| && |key| % 2 == 1
  {
    Pieces(Split(name))
  }

  /** The number of maximal digit runs in `s`, counted by their first digit. */
  function RunsFrom(s: string, afterDigit: bool): nat
  {
    if s == [] then 0
    else (if IsDigit(s[0]) && !afterDigit then 1 else 0) + RunsFrom(s[1..], IsDigit(s[0]))
  }

  function DigitRunCount(s: string): nat
  {
    RunsFrom(s, false)
  }

  // ---------------------------------------------------------------------
  // The split

  lemma ConcatCons2(a: string, b: string, rest: seq<string>)
    ensures Concat([a, b] + rest) == a + b + Concat(rest)
  {
    assert ([a, b] + rest)[1..] == [b] + rest;
    assert ([b] + rest)[1..] == rest;
  }

  /** A text piece and a run in front of a decomposition make a longer one. */
  lemma DecompositionCons(t: string, d: string, rest: seq<string>)
    requires NoDigits(t) && IsDigitString(d) && IsRunDecomposition(rest)
    requires |rest| > 1 ==> rest[0] != []
    ensures IsRunDecomposition([t, d] + rest)
  {
    assert ([t, d] + rest)[2..] == rest;
  }

  /** The first piece of `Split(v)` is its leading text, empty only when `v` starts with a digit. */
  lemma SplitHead(v: string)
    ensures Split(v)[0] == v[..TextRunLength(v)]
    ensures v != [] && !IsDigit(v[0]) ==> Split(v)[0] != []
  {
  }

  /** The leading text that `Split` cuts off holds no digit. */
  lemma TextPrefix(s: string)
    ensures NoDigits(s[..TextRunLength(s)])
  {
    var t := s[..TextRunLength(s)];
    forall k | 0 <= k < |t| ensures !IsDigit(t[k]) { assert t[k] == s[k]; }
  }

  /** Where a digit stands, a non-empty maximal run of digits starts. */
  lemma DigitRunAt(s: string, i: nat)
    requires i < |s| && IsDigit(s[i])
    ensures var j := i + DigitRunLength(s[i..]);
      && i < j <= |s|
      && IsDigitString(s[i..j])
      && (j < |s| ==> !IsDigit(s[j]))
  {
    var u := s[i..];
    assert u[0] == s[i];
    var j := i + DigitRunLength(u);
    var d := s[i..j];
    forall k | 0 <= k < |d| ensures IsDigit(d[k]) { assert d[k] == u[k]; }
    assert j < |s| ==> s[j] == u[j - i];
  }

  lemma ThreeSlices(s: string, i: nat, j: nat)
    requires i <= j <= |s|
    ensures s == s[..i] + s[i..j] + s[j..]
  {
    assert s[..i] + s[i..j] == s[..j];
  }

  /** Text without digits splits into itself alone. */
  lemma SplitNoDigitsDecomposition(s: string)
    requires TextRunLength(s) == |s|
    ensures IsRunDecomposition(Split(s)) && Concat(Split(s)) == s
  {
    assert Split(s) == [s];
    assert Concat([s]) == s + Concat([]);
  }

  /** One step of `Split` keeps the decomposition: text, maximal run, then the split of the rest. */
  lemma SplitStepDecomposition(s: string, t: string, d: string, v: string)
    requires Split(s) == [t, d] + Split(v) && s == t + d + v
    requires NoDigits(t) && IsDigitString(d) && (v != [] ==> !IsDigit(v[0]))
    requires IsRunDecomposition(Split(v)) && Concat(Split(v)) == v
    ensures IsRunDecomposition(Split(s)) && Concat(Split(s)) == s
  {
    ConcatCons2(t, d, Split(v));
    SplitHead(v);
    DecompositionCons(t, d, Split(v));
  }

  /** `Split` returns a decomposition of its argument into maximal digit runs. */
  lemma {:induction false} SplitIsDecomposition(s: string)
    ensures IsRunDecomposition(Split(s)) && Concat(Split(s)) == s
    decreases |s|
  {
    var i := TextRunLength(s);
    if i == |s| {
      SplitNoDigitsDecomposition(s);
    } else {
      TextPrefix(s);
      DigitRunAt(s, i);
      var j := i + DigitRunLength(s[i..]);
      ThreeSlices(s, i, j);
      SplitIsDecomposition(s[j..]);
      // the run s[i..j] is maximal, so the text after it starts with a non-digit
      assert s[j..] != [] ==> s[j..][0] == s[j];
      SplitStepDecomposition(s, s[..i], s[i..j], s[j..]);
    }
  }

  lemma {:induction false} TextRunLengthOf(t: string, u: string)
    requires NoDigits(t) && (u == [] || IsDigit(u[0]))
    ensures TextRunLength(t + u) == |t|
    decreases |t|
  {
    if t == [] {
      assert t + u == u;
    } else {
      assert (t + u)[1..] == t[1..] + u;
      TextRunLengthOf(t[1..], u);
    }
  }

  lemma {:induction false} DigitRunLengthOf(d: string, u: string)
    requires AllDigits(d) && (u == [] || !IsDigit(u[0]))
    ensures DigitRunLength(d + u) == |d|
    decreases |d|
  {
    if d == [] {
      assert d + u == u;
    } else {
      assert (d + u)[1..] == d[1..] + u;
      DigitRunLengthOf(d[1..], u);
    }
  }

  /** One step of `Split`: leading text, then a maximal run, then the rest. */
  lemma SplitStep(s: string, t: string, d: string, c: string)
    requires s == t + d + c && NoDigits(t) && IsDigitString(d) && (c == [] || !IsDigit(c[0]))
    ensures Split(s) == [t, d] + Split(c)
  {
    assert (d + c)[0] == d[0];
    assert s == t + (d + c);
    TextRunLengthOf(t, d + c);
    assert s[|t|..] == d + c;
    DigitRunLengthOf(d, c);
    var j := |t| + |d|;
    assert s[..|t|] == t && s[|t|..j] == d && s[j..] == c;
  }

  /** A name without digits splits into itself. */
  lemma SplitText(s: string, parts: seq<string>)
    requires |parts| == 1 && NoDigits(parts[0]) && Concat(parts) == s
    ensures Split(s) == parts
  {
    assert parts[1..] == [];
    assert s == parts[0] + [] == parts[0];
    TextRunLengthOf(s, []);
    assert s + [] == s;
    assert TextRunLength(s) == |s|;
    assert parts == [s];
  }

  /** A decomposition into maximal digit runs is unique: it is what `Split` returns. */
  lemma {:induction false} SplitUnique(s: string, parts: seq<string>)
    requires IsRunDecomposition(parts) && Concat(parts) == s
    ensures Split(s) == parts
    decreases |parts|
  {
    if |parts| == 1 {
      SplitText(s, parts);
    } else {
      var rest := parts[2..];
      var c := Concat(rest);
      ConcatCons2(parts[0], parts[1], rest);
      TailStartsWithText(rest);
      SplitStep(s, parts[0], parts[1], c);
      SplitUnique(c, rest);
      assert parts == [parts[0], parts[1]] + rest;
    }
  }

  /** What follows a digit run in a decomposition does not start with a digit. */
  lemma TailStartsWithText(rest: seq<string>)
    requires IsRunDecomposition(rest) && (|rest| > 1 ==> rest[0] != [])
    ensures Concat(rest) == [] || !IsDigit(Concat(rest)[0])
  {
    var c := Concat(rest);
    if |rest| == 1 {
      assert rest[1..] == [];
      assert c == rest[0] + Concat([]);
    } else {
      ConcatCons2(rest[0], rest[1], rest[2..]);
      assert c[0] == rest[0][0];
    }
  }

  // ---------------------------------------------------------------------
  // Counting digit runs

  lemma {:induction false} RunsFromText(t: string, u: string, afterDigit: bool)
    requires NoDigits(t)
    ensures RunsFrom(t + u, afterDigit) == RunsFrom(u, if t == [] then afterDigit else false)
    decreases |t|
  {
    if t != [] {
      assert (t + u)[1..] == t[1..] + u;
      RunsFromText(t[1..], u, false);
    } else {
      assert t + u == u;
    }
  }

  lemma {:induction false} RunsFromDigits(d: string, u: string, afterDigit: bool)
    requires IsDigitString(d)
    ensures RunsFrom(d + u, afterDigit) == (if afterDigit then 0 else 1) + RunsFrom(u, true)
    decreases |d|
  {
    assert (d + u)[1..] == d[1..] + u;
    if |d| > 1 {
      RunsFromDigits(d[1..], u, true);
    } else {
      assert d[1..] + u == u;
    }
  }

  /** A decomposition with k runs has 2k+1 pieces. */
  lemma {:induction false} DecompositionLength(parts: seq<string>)
    requires IsRunDecomposition(parts)
    ensures |parts| == 2 * DigitRunCount(Concat(parts)) + 1
    decreases |parts|
  {
    if |parts| == 1 {
      assert Concat(parts) == parts[0] + Concat([]);
      RunsFromText(parts[0], [], false);
      assert parts[0] + [] == parts[0];
    } else {
      var rest := parts[2..];
      var c := Concat(rest);
      ConcatCons2(parts[0], parts[1], rest);
      assert parts[0] + parts[1] + c == parts[0] + (parts[1] + c);
      RunsFromText(parts[0], parts[1] + c, false);
      RunsFromDigits(parts[1], c, false);
      if |rest| == 1 {
        assert c == rest[0] + Concat([]);
        RunsFromText(rest[0], [], true);
        RunsFromText(rest[0], [], false);
        assert rest[0] + [] == rest[0];
      } else {
        ConcatCons2(rest[0], rest[1], rest[2..]);
        assert parts[2] != [];
        var c' := rest[1] + Concat(rest[2..]);
        assert c == rest[0] + c';
        RunsFromText(rest[0], c', true);
        RunsFromText(rest[0], c', false);
      }
      DecompositionLength(rest);
    }
  }

  /** The same decomposition read by position: text at even, runs at odd positions. */
  lemma {:induction false} DecompositionAt(parts: seq<string>, i: nat)
    requires IsRunDecomposition(parts) && i < |parts|
    ensures |parts| % 2 == 1
    ensures i % 2 == 0 ==> NoDigits(parts[i])
    ensures i % 2 == 1 ==> IsDigitString(parts[i])
    decreases |parts|
  {
    if |parts| > 1 {
      var j := if i >= 2 then i - 2 else 0;
      DecompositionAt(parts[2..], j);
      if i >= 2 {
        assert parts[i] == parts[2..][j];
      }
    }
  }

  // ---------------------------------------------------------------------
  // The key

  /**
   * The key has 2k+1 pieces for a name with k digit runs: lower-case,
   * digit-free text at even positions and the value of the matching run
   * at odd positions.
   */
  lemma KeyShape(name: string)
    ensures |Key(name)| == |Split(name)| == 2 * DigitRunCount(name) + 1
    ensures forall i :: 0 <= i < |Key(name)| && i % 2 == 0 ==>
      Key(name)[i] == Text(Lower(Split(name)[i])) && NoDigits(Key(name)[i].text) && NoUpper(Key(name)[i].text)
    ensures forall i :: 0 <= i < |Key(name)| && i % 2 == 1 ==>
      IsDigitString(Split(name)[i]) && Key(name)[i] == Num(DecimalValue(Split(name)[i]))
  {
    var parts := Split(name);
    SplitIsDecomposition(name);
    DecompositionLength(parts);
    forall i | 0 <= i < |parts| ensures i % 2 == 1 ==> IsDigitString(parts[i]) {
      DecompositionAt(parts, i);
    }
    forall i | 0 <= i < |parts| && i % 2 == 0
      ensures !IsDigitString(parts[i]) && NoDigits(Lower(parts[i]))
    {
      DecompositionAt(parts, i);
      if parts[i] != [] { assert !IsDigit(parts[i][0]); }
      forall k | 0 <= k < |parts[i]| ensures !IsDigit(Lower(parts[i])[k]) {
        assert !IsDigit(parts[i][k]);
      }
    }
  }

  /** Every piece is either text or a number, alternating from text. */
  lemma KeyAlternates(name: string)
    ensures forall i :: 0 <= i < |Key(name)| ==> (Key(name)[i].Text? <==> i % 2 == 0)
  {
    KeyShape(name);
  }

  function LowerAll(parts: seq<string>): (r: seq<string>)
    ensures |r| == |parts|
    ensures forall i :: 0 <= i < |parts| ==> r[i] == Lower(parts[i])
  {
    if parts == [] then [] else [Lower(parts[0])] + LowerAll(parts[1..])
  }

  /** Lower-casing keeps every digit where it is and every non-digit a non-digit. */
  lemma LowerKeepsDigits(t: string)
    ensures NoDigits(t) ==> NoDigits(Lower(t))
    ensures AllDigits(t) ==> Lower(t) == t
    ensures IsDigitString(Lower(t)) == IsDigitString(t)
  {
    forall k | 0 <= k < |t| ensures IsDigit(Lower(t)[k]) == IsDigit(t[k]) {
      assert Lower(t)[k] == LowerChar(t[k]);
    }
  }

  lemma {:induction false} LowerDecomposition(parts: seq<string>)
    requires IsRunDecomposition(parts)
    ensures IsRunDecomposition(LowerAll(parts))
    ensures Concat(LowerAll(parts)) == Lower(Concat(parts))
    decreases |parts|
  {
    var lowered := LowerAll(parts);
    LowerKeepsDigits(parts[0]);
    if |parts| == 1 {
      assert Concat(parts) == parts[0] + Concat([]);
      assert Concat(lowered) == lowered[0] + Concat([]);
    } else {
      var rest := parts[2..];
      LowerDecomposition(rest);
      LowerKeepsDigits(parts[1]);
      assert lowered == [Lower(parts[0]), Lower(parts[1])] + LowerAll(rest);
      DecompositionCons(Lower(parts[0]), Lower(parts[1]), LowerAll(rest));
      ConcatCons2(parts[0], parts[1], rest);
      ConcatCons2(Lower(parts[0]), Lower(parts[1]), LowerAll(rest));
      LowerConcat(parts[0] + parts[1], Concat(rest));
      LowerConcat(parts[0], parts[1]);
    }
  }

  lemma LowerConcat(a: string, b: string)
    ensures Lower(a + b) == Lower(a) + Lower(b)
  {
  }

  /** Lower-casing the name first changes nothing: the key ignores case. */
  lemma KeyIgnoresCase(name: string)
    ensures Key(Lower(name)) == Key(name)
  {
    var parts := Split(name);
    SplitIsDecomposition(name);
    LowerDecomposition(parts);
    SplitUnique(Lower(name), LowerAll(parts));
    forall i | 0 <= i < |parts| ensures PieceOf(Lower(parts[i])) == PieceOf(parts[i]) {
      PieceOfLower(parts[i]);
    }
  }

  /** One piece of the key does not change when its text is lower-cased first. */
  lemma PieceOfLower(t: string)
    ensures PieceOf(Lower(t)) == PieceOf(t)
  {
    LowerKeepsDigits(t);
    assert Lower(Lower(t)) == Lower(t);
  }

  // ---------------------------------------------------------------------
  // Decimal text

  /** `int(str(n)) == n`: the scan number written out reads back as itself. */
  lemma {:induction false} DecimalRoundTrip(n: nat)
    ensures DecimalValue(DecimalString(n)) == n
  {
    if n >= 10 {
      var s := DecimalString(n);
      assert s[..|s| - 1] == DecimalString(n / 10);
      DecimalRoundTrip(n / 10);
    }
  }

  /** Different numbers are written differently. */
  lemma DecimalStringInjective(m: nat, n: nat)
    requires DecimalString(m) == DecimalString(n)
    ensures m == n
  {
    DecimalRoundTrip(m);
    DecimalRoundTrip(n);
  }

  // ---------------------------------------------------------------------
  // Examples

  /** `int` ignores leading zeros: a zero in front of a digit string does not change its value. */
  lemma {:induction false} LeadingZeroIgnored(d: string)
    requires AllDigits(d)
    ensures AllDigits("0" + d) && DecimalValue("0" + d) == DecimalValue(d)
    decreases |d|
  {
    var z := "0" + d;
    if d == [] {
      assert z == "0";
    } else {
      var init := d[..|d| - 1];
      LeadingZeroIgnored(init);
      assert z[..|z| - 1] == "0" + init;
      assert z[|z| - 1] == d[|d| - 1];
    }
  }

  /** "A1.mgf" and "a01.mgf" get the same key: case and leading zeros are ignored. */
  lemma CaseAndLeadingZerosIgnored()
    ensures Key("A1.mgf") == Key("a01.mgf") == [Text("a"), Num(1), Text(".mgf")]
  {
    KeyOfUpperA1();
    KeyOfA01();
  }

  lemma KeyOfUpperA1()
    ensures Key("A1.mgf") == [Text("a"), Num(1), Text(".mgf")]
  {
    assert Lower("A") == "a" && Lower(".mgf") == ".mgf";
    assert DecimalValue("1") == 1;
    KeyOfThreeParts("A1.mgf", "A", "1", ".mgf");
  }

  lemma KeyOfA01()
    ensures Key("a01.mgf") == [Text("a"), Num(1), Text(".mgf")]
  {
    var d := "01";
    assert DecimalValue(d) == 1 by {
      assert d[..1] == "0";
      assert DecimalValue("0") == 0;
    }
    assert Lower("a") == "a" && Lower(".mgf") == ".mgf";
    assert "a01.mgf" == "a" + d + ".mgf";
    KeyOfThreeParts("a01.mgf", "a", d, ".mgf");
  }

  /** The key of a name made of text, one digit run and text. */
  lemma KeyOfThreeParts(name: string, t: string, d: string, u: string)
    requires name == t + d + u && NoDigits(t) && IsDigitString(d) && NoDigits(u)
    ensures Key(name) == [Text(Lower(t)), Num(DecimalValue(d)), Text(Lower(u))]
  {
    var parts := [t, d, u];
    ConcatCons2(t, d, [u]);
    assert Concat([u]) == u + Concat([]);
    assert u + [] == u;
    SplitUnique(name, parts);
    KeyShape(name);
  }
}
