/**
 * The merge loop of src/merge_mgf.py: walk the directory listing in natural
 * order, keep the names ending in ".mgf", and append every spectrum of every
 * such file to one list, overwriting its `scans` parameter with a counter that
 * starts at 1.
 *
 * The directory listing and the reader's output are parameters: `files` maps
 * a file name to the spectra the MGF reader yields for it, and a selected
 * name missing from `files` stands for a file the reader fails on.
 */
module MergeMgf {
  import opened NaturalKey
  import opened KeyOrder
  import opened StableSort
  import opened NaturalSort

  const MgfSuffix: string := ".mgf"
  const ScansParam: string := "scans"
  const MergedName: string := "merged.mgf"

  /**
   * A parameter value: the reader gives text for most parameters and other
   * values (a precursor mass pair, a charge list) for some; the script only
   * ever stores text.
   */
  datatype ParamValue<V> = Str(text: string) | Other(value: V)

  /** One spectrum as the reader yields it: its parameters, and peak data this code never reads. */
  datatype Spectrum<V, P> = Spectrum(params: map<string, ParamValue<V>>, peaks: P)

  /** The merged spectra, or the first selected file the reader failed on. */
  datatype Outcome<V, P> = Merged(spectra: seq<Spectrum<V, P>>) | ReadFailed(name: string)

  /** One progress line: the file name and the scan number its first spectrum gets. */
  type Progress = (string, nat)

  type Files<V, P> = map<string, seq<Spectrum<V, P>>>

  /** `str.endswith`. */
  predicate EndsWith(s: string, suffix: string)
  {
    |suffix| <= |s| && s[|s| - |suffix|..] == suffix
  }

  predicate IsMgfName(name: string)
  {
    EndsWith(name, MgfSuffix)
  }

  /** The names that end in ".mgf", in their order. */
  function FilterMgf(names: seq<string>): seq<string>
  {
    Filter(names, IsMgfName)
  }

  /** The files the loop reads, in the order it reads them: sorted first, then filtered. */
  function Selected(listing: seq<string>): (names: seq<string>)
    ensures |names| <= |listing|
  {
    FilterMgf(SortNames(listing))
  }

  predicate AllReadable<V, P>(names: seq<string>, files: Files<V, P>)
  {
    forall n :: n in names ==> n in files
  }

  /** The index of the first name the reader fails on, or the length if there is none. */
  function FirstUnreadable<V, P>(names: seq<string>, files: Files<V, P>): (m: nat)
    ensures m <= |names|
    ensures forall j :: 0 <= j < m ==> names[j] in files
    ensures m < |names| ==> names[m] !in files
  {
    if names == [] || names[0] !in files then 0 else 1 + FirstUnreadable(names[1..], files)
  }

  /** The spectra of the named files, file after file, each file in its own order. */
  function Gathered<V, P>(names: seq<string>, files: Files<V, P>): seq<Spectrum<V, P>>
    requires AllReadable(names, files)
  {
    if names == [] then []
    else Gathered(names[..|names| - 1], files) + files[names[|names| - 1]]
  }

  /** The sum of the spectrum counts of the named files. */
  function RecordCount<V, P>(names: seq<string>, files: Files<V, P>): nat
    requires AllReadable(names, files)
  {
    if names == [] then 0 else |files[names[0]]| + RecordCount(names[1..], files)
  }

  /** `spectrum_dict['params']['scans'] = str(n)`. */
  function WithScan<V, P>(s: Spectrum<V, P>, n: nat): (r: Spectrum<V, P>)
    ensures r.peaks == s.peaks
    ensures r.params.Keys == s.params.Keys + {ScansParam}
  {
    s.(params := s.params[ScansParam := Str(DecimalString(n))])
  }

  /** The spectra with scan numbers `first`, `first + 1`, ... in order. */
  function Renumbered<V, P>(spectra: seq<Spectrum<V, P>>, first: nat): (r: seq<Spectrum<V, P>>)
    ensures |r| == |spectra|
  {
    seq(|spectra|, i requires 0 <= i < |spectra| => WithScan(spectra[i], first + i))
  }

  /**
   * The progress lines printed for the named files: each name with the scan
   * counter at the moment its file is opened. Every file but the last must
   * have been read for the counter to be known.
   */
  function ProgressLines<V, P>(names: seq<string>, files: Files<V, P>): (lines: seq<Progress>)
    requires forall j :: 0 <= j < |names| - 1 ==> names[j] in files
    ensures |lines| == |names|
  {
    if names == [] then []
    else
      var earlier := names[..|names| - 1];
      ProgressLines(earlier, files) + [(names[|names| - 1], 1 + |Gathered(earlier, files)|)]
  }

  /**
   * What the script leaves behind after walking `selected`: on success the
   * spectra of the selected files renumbered 1, 2, ... in file order, one
   * progress line per file and the counter one past the last number; when
   * the reader fails on a file, the progress lines up to and including that
   * file, the counter as that file found it, and nothing written.
   */
  ghost predicate MergeResult<V, P>(selected: seq<string>, files: Files<V, P>,
                           outcome: Outcome<V, P>, progress: seq<Progress>, scanNr: nat)
  {
    var m := FirstUnreadable(selected, files);
    && (m == |selected| ==>
          && outcome == Merged(Renumbered(Gathered(selected, files), 1))
          && progress == ProgressLines(selected, files)
          && scanNr == 1 + |outcome.spectra|)
    && (m < |selected| ==>
          && outcome == ReadFailed(selected[m])
          && progress == ProgressLines(selected[..m + 1], files)
          && scanNr == 1 + |Gathered(selected[..m], files)|)
  }

  /** The script, from the directory listing to the list handed to `mgf.write`. */
  method Merge<V, P>(listing: seq<string>, files: Files<V, P>)
    returns (outcome: Outcome<V, P>, progress: seq<Progress>, scanNr: nat)
    ensures MergeResult(Selected(listing), files, outcome, progress, scanNr)
  {
    var names := SortNames(listing);
    outcome, progress, scanNr := MergeInOrder(names, files);
  }

  /** The loop of the script over an already sorted listing. */
  method MergeInOrder<V, P>(names: seq<string>, files: Files<V, P>)
    returns (outcome: Outcome<V, P>, progress: seq<Progress>, scanNr: nat)
    ensures MergeResult(FilterMgf(names), files, outcome, progress, scanNr)
  {
    scanNr := 1;
    var spectra: seq<Spectrum<V, P>> := [];
    progress := [];
    ghost var done: seq<string> := [];
    var i := 0;
    while i < |names|
      invariant 0 <= i <= |names|
      invariant done == FilterMgf(names[..i])
      invariant AllReadable(done, files)
      invariant spectra == Renumbered(Gathered(done, files), 1)
      invariant scanNr == 1 + |spectra|
      invariant progress == ProgressLines(done, files)
    {
      var filename := names[i];
      FilterMgfSnoc(names, i);
      if IsMgfName(filename) {
        progress := progress + [(filename, scanNr)];
        if filename !in files {
          outcome := ReadFailed(filename);
          FailureResult(names, i, done, files, progress, scanNr);
          return;
        }
        var records := files[filename];
        ReadStep(done, filename, files);
        ProgressSnoc(done, filename, files);
        spectra, scanNr := AppendRenumbered(spectra, records, scanNr);
        done := done + [filename];
      }
      i := i + 1;
    }
    assert names[..i] == names;
    outcome := Merged(spectra);
    SuccessResult(done, files, outcome, progress, scanNr);
  }

  /**
   * The inner loop of the script: every spectrum of one file gets the
   * current counter as its `scans` value and is appended, and the counter
   * advances by one per spectrum.
   */
  method AppendRenumbered<V, P>(spectra: seq<Spectrum<V, P>>, records: seq<Spectrum<V, P>>, scanNr: nat)
    returns (spectra': seq<Spectrum<V, P>>, scanNr': nat)
    ensures spectra' == spectra + Renumbered(records, scanNr)
    ensures scanNr' == scanNr + |records|
  {
    spectra', scanNr' := spectra, scanNr;
    var j := 0;
    while j < |records|
      invariant 0 <= j <= |records|
      invariant spectra' == spectra + Renumbered(records[..j], scanNr)
      invariant scanNr' == scanNr + j
    {
      var spectrum := records[j];
      spectrum := spectrum.(params := spectrum.params[ScansParam := Str(DecimalString(scanNr'))]);
      RenumberedSnoc(records, j, scanNr);
      spectra' := spectra' + [spectrum];
      scanNr' := scanNr' + 1;
      j := j + 1;
    }
    assert records[..j] == records;
  }

  // ---------------------------------------------------------------------
  // Which files are read

  /**
   * Sorting the whole listing and then keeping the ".mgf" names reads the
   * same files in the same order as keeping the ".mgf" names and sorting them.
   */
  lemma SelectedIsSortedMgfNames(listing: seq<string>)
    ensures Selected(listing) == SortNames(FilterMgf(listing))
  {
    NaturalOrderIsKeyPreorder();
    FilterSortCommute(listing, IsMgfName, NameLe, Key);
  }

  /** Each ".mgf" name of the listing is read as often as it is listed, and in natural order. */
  lemma SelectedFiles(listing: seq<string>)
    ensures multiset(Selected(listing)) == multiset(FilterMgf(listing))
    ensures forall n :: n in Selected(listing) <==> n in listing && IsMgfName(n)
    ensures Sorted(Selected(listing), NameLe)
  {
    SelectedIsSortedMgfNames(listing);
    SortNamesIsStableSort(FilterMgf(listing));
    FilterMembers(listing, IsMgfName);
    forall n ensures n in Selected(listing) <==> n in FilterMgf(listing) {
      assert n in Selected(listing) <==> n in multiset(Selected(listing));
      assert n in FilterMgf(listing) <==> n in multiset(FilterMgf(listing));
    }
  }

  /** The output is written into the input directory, so a merged.mgf from an earlier run is read again. */
  lemma MergedOutputIsReread(listing: seq<string>)
    requires MergedName in listing
    ensures MergedName in Selected(listing)
  {
    SelectedFiles(listing);
    assert MergedName[|MergedName| - |MgfSuffix|..] == MgfSuffix;
  }

  /** A directory without ".mgf" names reads nothing, prints nothing and writes an empty merged.mgf. */
  lemma NoMgfNamesMergesNothing<V, P>(listing: seq<string>, files: Files<V, P>)
    requires forall n :: n in listing ==> !IsMgfName(n)
    ensures Selected(listing) == []
    ensures MergeResult(Selected(listing), files, Merged([]), [], 1)
  {
    SelectedFiles(listing);
    FilterNone(listing, IsMgfName);
    assert |multiset(Selected(listing))| == 0;
  }

  /** Non-".mgf" names are skipped, and the rest are read in natural order. */
  lemma SelectionExample()
    ensures Selected(["a2.mgf", "readme.txt", "a10.mgf", "a1.mgf"]) == ["a1.mgf", "a2.mgf", "a10.mgf"]
  {
    assert "readme.txt"[6..][3] != MgfSuffix[3];
    SelectionSkipsSecond("a2.mgf", "readme.txt", "a10.mgf", "a1.mgf");
    NaturalOrderExample();
  }

  lemma SelectionSkipsSecond(w: string, x: string, y: string, z: string)
    requires IsMgfName(w) && !IsMgfName(x) && IsMgfName(y) && IsMgfName(z)
    ensures Selected([w, x, y, z]) == SortNames([w, y, z])
  {
    SelectedIsSortedMgfNames([w, x, y, z]);
    assert [w, x, y, z][1..] == [x, y, z] && [x, y, z][1..] == [y, z];
    assert [y, z][1..] == [z] && [z][1..] == [];
    assert Filter([z], IsMgfName) == (if IsMgfName(z) then [z] else []) + Filter([], IsMgfName);
    assert FilterMgf([y, z]) == [y, z];
    assert FilterMgf([x, y, z]) == [y, z];
    assert FilterMgf([w, x, y, z]) == [w, y, z];
  }

  // ---------------------------------------------------------------------
  // What the merged list holds

  /**
   * Renumbering touches nothing but the `scans` parameter, and the i-th
   * spectrum's `scans` is the decimal numeral of first + i.
   */
  lemma RenumberedScans<V, P>(spectra: seq<Spectrum<V, P>>, first: nat)
    ensures |Renumbered(spectra, first)| == |spectra|
    ensures forall i :: 0 <= i < |spectra| ==>
      && Renumbered(spectra, first)[i].peaks == spectra[i].peaks
      && Renumbered(spectra, first)[i].params - {ScansParam} == spectra[i].params - {ScansParam}
      && ScansParam in Renumbered(spectra, first)[i].params
      && Renumbered(spectra, first)[i].params[ScansParam] == Str(DecimalString(first + i))
      && DecimalValue(Renumbered(spectra, first)[i].params[ScansParam].text) == first + i
  {
    forall i | 0 <= i < |spectra|
      ensures DecimalValue(Renumbered(spectra, first)[i].params[ScansParam].text) == first + i
    {
      DecimalRoundTrip(first + i);
    }
  }

  /** No two merged spectra share a `scans` value. */
  lemma ScansDistinct<V, P>(spectra: seq<Spectrum<V, P>>, first: nat, i: nat, j: nat)
    requires i < |spectra| && j < |spectra| && i != j
    ensures Renumbered(spectra, first)[i].params[ScansParam] != Renumbered(spectra, first)[j].params[ScansParam]
  {
    RenumberedScans(spectra, first);
  }

  lemma {:induction false} GatheredConcat<V, P>(a: seq<string>, b: seq<string>, files: Files<V, P>)
    requires AllReadable(a + b, files)
    ensures AllReadable(a, files) && AllReadable(b, files)
    ensures Gathered(a + b, files) == Gathered(a, files) + Gathered(b, files)
    decreases |b|
  {
    if b == [] {
      assert a + b == a;
    } else {
      var init, last := b[..|b| - 1], b[|b| - 1];
      assert (a + b)[..|a + b| - 1] == a + init;
      assert (a + b)[|a + b| - 1] == last;
      assert AllReadable(a + init, files) by {
        forall n | n in a + init ensures n in files { assert n in a + b; }
      }
      GatheredConcat(a, init, files);
      assert Gathered(a + b, files) == Gathered(a + init, files) + files[last];
      assert Gathered(b, files) == Gathered(init, files) + files[last];
    }
  }

  /** The merged list holds as many spectra as the selected files together. */
  lemma {:induction false} GatheredLength<V, P>(names: seq<string>, files: Files<V, P>)
    requires AllReadable(names, files)
    ensures |Gathered(names, files)| == RecordCount(names, files)
    decreases |names|
  {
    if names != [] {
      assert names == [names[0]] + names[1..];
      GatheredConcat([names[0]], names[1..], files);
      assert [names[0]][..0] == [];
      GatheredLength(names[1..], files);
    }
  }

  /** The j-th spectrum of the k-th file follows all spectra of the files before it. */
  lemma GatheredLayout<V, P>(names: seq<string>, files: Files<V, P>, k: nat, j: nat)
    requires AllReadable(names, files)
    requires k < |names| && j < |files[names[k]]|
    ensures AllReadable(names[..k], files)
    ensures |Gathered(names[..k], files)| + j < |Gathered(names, files)|
    ensures Gathered(names, files)[|Gathered(names[..k], files)| + j] == files[names[k]][j]
  {
    var rest := [names[k]] + names[k + 1..];
    assert names == names[..k] + rest;
    GatheredConcat(names[..k], rest, files);
    GatheredConcat([names[k]], names[k + 1..], files);
    assert [names[k]][..0] == [];
  }

  /** One progress line per file, naming it with the number of spectra before it, plus one. */
  lemma {:induction false} ProgressLinesAt<V, P>(names: seq<string>, files: Files<V, P>, k: nat)
    requires AllReadable(names, files) && k < |names|
    ensures AllReadable(names[..k], files)
    ensures |ProgressLines(names, files)| == |names|
    ensures ProgressLines(names, files)[k] == (names[k], 1 + |Gathered(names[..k], files)|)
    decreases |names|
  {
    var last := |names| - 1;
    if last > 0 {
      ProgressLinesAt(names[..last], files, if k < last then k else 0);
    }
    if k < last {
      assert names[..last][..k] == names[..k];
    }
  }

  /** The number printed for a non-empty file is the `scans` value its first spectrum gets. */
  lemma ProgressNamesFirstScan<V, P>(names: seq<string>, files: Files<V, P>, k: nat)
    requires AllReadable(names, files) && k < |names| && files[names[k]] != []
    ensures |ProgressLines(names, files)| == |names|
    ensures var line := ProgressLines(names, files)[k];
      && line.0 == names[k]
      && 1 <= line.1 <= |Gathered(names, files)|
      && Renumbered(Gathered(names, files), 1)[line.1 - 1] == WithScan(files[names[k]][0], line.1)
  {
    ProgressLinesAt(names, files, k);
    GatheredLayout(names, files, k, 0);
  }

  /** A file without spectra prints the same number as the file after it. */
  lemma EmptyFileSharesNumber<V, P>(names: seq<string>, files: Files<V, P>, k: nat)
    requires AllReadable(names, files) && k + 1 < |names| && files[names[k]] == []
    ensures |ProgressLines(names, files)| == |names|
    ensures ProgressLines(names, files)[k].1 == ProgressLines(names, files)[k + 1].1
  {
    ProgressLinesAt(names, files, k);
    ProgressLinesAt(names, files, k + 1);
    assert names[..k + 1] == names[..k] + [names[k]];
    GatheredSnoc(names[..k], names[k], files);
  }

  // ---------------------------------------------------------------------
  // Helpers for the loop

  /** Looking at one more name of the listing adds it to the selection if it ends in ".mgf". */
  lemma FilterMgfSnoc(names: seq<string>, i: nat)
    requires i < |names|
    ensures FilterMgf(names[..i + 1]) == FilterMgf(names[..i]) + (if IsMgfName(names[i]) then [names[i]] else [])
  {
    assert names[..i + 1] == names[..i] + [names[i]];
    FilterConcat(names[..i], [names[i]], IsMgfName);
    assert [names[i]][1..] == [];
  }

  lemma FailureResult<V, P>(names: seq<string>, i: nat, done: seq<string>, files: Files<V, P>,
                         progress: seq<Progress>, scanNr: nat)
    requires i < |names| && IsMgfName(names[i]) && names[i] !in files
    requires done == FilterMgf(names[..i]) && AllReadable(done, files)
    requires progress == ProgressLines(done, files) + [(names[i], scanNr)]
    requires scanNr == 1 + |Gathered(done, files)|
    ensures MergeResult(FilterMgf(names), files, ReadFailed(names[i]), progress, scanNr)
  {
    FailureIsFirstUnreadable(names, i, files);
    ProgressSnoc(done, names[i], files);
  }

  /** Reading one more selected file: its spectra follow, numbered on from the counter. */
  lemma ReadStep<V, P>(done: seq<string>, name: string, files: Files<V, P>)
    requires AllReadable(done, files) && name in files
    ensures AllReadable(done + [name], files)
    ensures Renumbered(Gathered(done + [name], files), 1)
         == Renumbered(Gathered(done, files), 1) + Renumbered(files[name], 1 + |Gathered(done, files)|)
  {
    var before := Gathered(done, files);
    GatheredSnoc(done, name, files);
    assert Gathered(done + [name], files) == before + files[name];
    RenumberedConcat(before, files[name], 1);
  }

  lemma SuccessResult<V, P>(selected: seq<string>, files: Files<V, P>,
                         outcome: Outcome<V, P>, progress: seq<Progress>, scanNr: nat)
    requires AllReadable(selected, files)
    requires outcome == Merged(Renumbered(Gathered(selected, files), 1))
    requires progress == ProgressLines(selected, files)
    requires scanNr == 1 + |Gathered(selected, files)|
    ensures MergeResult(selected, files, outcome, progress, scanNr)
  {
    SuccessHasNoUnreadable(selected, files);
  }

  lemma FailureIsFirstUnreadable<V, P>(names: seq<string>, i: nat, files: Files<V, P>)
    requires i < |names| && IsMgfName(names[i]) && names[i] !in files
    requires AllReadable(FilterMgf(names[..i]), files)
    ensures var selected := FilterMgf(names);
      var done := FilterMgf(names[..i]);
      && |done| < |selected|
      && FirstUnreadable(selected, files) == |done|
      && selected[..|done|] == done
      && selected[..|done| + 1] == done + [names[i]]
  {
    var done := FilterMgf(names[..i]);
    FilterMgfSnoc(names, i);
    assert names == names[..i + 1] + names[i + 1..];
    FilterConcat(names[..i + 1], names[i + 1..], IsMgfName);
    var selected := FilterMgf(names);
    assert selected == done + [names[i]] + FilterMgf(names[i + 1..]);
    assert selected[..|done|] == done;
    assert selected[|done|] == names[i];
    FirstUnreadableAt(selected, files, |done|);
  }

  /** A name the reader fails on, preceded only by readable ones, is the first unreadable one. */
  lemma FirstUnreadableAt<V, P>(names: seq<string>, files: Files<V, P>, k: nat)
    requires k < |names| && names[k] !in files
    requires AllReadable(names[..k], files)
    ensures FirstUnreadable(names, files) == k
  {
    forall j | 0 <= j < k
      ensures names[j] in files
    {
      assert names[j] in names[..k];
    }
  }

  lemma {:induction false} SuccessHasNoUnreadable<V, P>(names: seq<string>, files: Files<V, P>)
    requires AllReadable(names, files)
    ensures FirstUnreadable(names, files) == |names|
  {
    if names != [] {
      assert names[0] in names;
      forall n | n in names[1..]
        ensures n in files
      {
        assert n in names;
      }
      SuccessHasNoUnreadable(names[1..], files);
    }
  }

  /** Reading one more file appends its spectra. */
  lemma GatheredSnoc<V, P>(names: seq<string>, name: string, files: Files<V, P>)
    requires AllReadable(names, files) && name in files
    ensures AllReadable(names + [name], files)
    ensures Gathered(names + [name], files) == Gathered(names, files) + files[name]
  {
    assert (names + [name])[..|names|] == names;
  }

  /** Opening one more file prints its name with the current counter. */
  lemma ProgressSnoc<V, P>(names: seq<string>, name: string, files: Files<V, P>)
    requires AllReadable(names, files)
    ensures ProgressLines(names + [name], files) == ProgressLines(names, files) + [(name, 1 + |Gathered(names, files)|)]
  {
    assert (names + [name])[..|names|] == names;
  }

  lemma RenumberedSnoc<V, P>(records: seq<Spectrum<V, P>>, j: nat, first: nat)
    requires j < |records|
    ensures Renumbered(records[..j + 1], first) == Renumbered(records[..j], first) + [WithScan(records[j], first + j)]
  {
  }

  /** Numbering two runs of spectra one after the other numbers their concatenation. */
  lemma RenumberedConcat<V, P>(a: seq<Spectrum<V, P>>, b: seq<Spectrum<V, P>>, first: nat)
    ensures Renumbered(a + b, first) == Renumbered(a, first) + Renumbered(b, first + |a|)
  {
  }
}
