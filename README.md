# merge_mgf in Dafny

`src/merge_mgf.py` merges every MGF file of a directory into one `merged.mgf`.
It sorts the directory listing with the `natural_sort` key and keeps the names
ending in `.mgf`. For each kept file it prints the name with the current scan
counter, then walks the file's spectra in order: it overwrites each spectrum's
`scans` parameter with the counter as decimal text, appends the spectrum to one
list, and increments the counter, which starts at 1. The whole list is then
written to `merged.mgf` in the same directory.

This project models that script and proves what it does.

- `NaturalKey` (natural_key.dfy) covers the `natural_sort` key.
  - `Split` is `re.split('([0-9]+)', s)`.
  - `PieceOf` is the comprehension's `int(text) if text.isdigit() else text.lower()`.
  - `Key` is the key itself.
  - `DecimalString` is `str(n)`.
- `KeyOrder` (key_order.dfy) covers Python's `<` on the key lists: strings
  character by character, integers numerically, a shorter prefix first. A
  string compared with an integer would raise `TypeError`; that case is
  `None` and is proved never to arise between two keys.
- `StableSort` (stable_sort.dfy) covers a stable sort and a filter over any
  total preorder. It proves that any two stable sorts of one list agree, and
  that filtering commutes with stable sorting.
- `NaturalSort` (natural_sort.dfy) is `sorted(listing, key=natural_sort)`.
- `MergeMgf` (merge_mgf.dfy) covers the loop.
  - The directory listing and the reader's output are parameters. `files` maps
    each readable file name to the spectra the MGF reader yields for it.
  - A selected name missing from `files` is a file the reader fails on.
  - `Merge` is the script as a method. Its outer loop is `MergeInOrder`; its
    inner loop, over one file's spectra, is `AppendRenumbered`.
  - They are proved against the functions `Selected`, `Gathered`,
    `Renumbered` and `ProgressLines`, which the lemmas are about.
- `Wrappers` (wrappers.dfy) holds `Option`.

The script sorts the whole listing and filters inside the loop. The model
follows that order. `MergeMgf.SelectedIsSortedMgfNames` proves that filtering
the listing first and sorting afterwards would read the same files in the same
order.

## Model

| member | source | states |
|---|---|---|
| NaturalKey.Split | src/merge_mgf.py:8-10 | `re.split('([0-9]+)', name)`: digit-free text, then pairs of a captured digit run and the text after it, so an odd number of pieces; `SplitIsDecomposition` and `SplitUnique` characterise it completely |
| NaturalKey.PieceOf | src/merge_mgf.py:9 | `int(text) if text.isdigit() else text.lower()`: an integer exactly when the piece is a non-empty digit string, otherwise text of the same length with no upper case |
| NaturalKey.Key | src/merge_mgf.py:8-10 | `natural_sort(name)`: one entry per piece of the split, an odd number of entries |
| NaturalKey.DecimalValue | src/merge_mgf.py:9 | `int(text)` on a digit string, leading zeros allowed: a value below 10 to the power of the digit count |
| NaturalKey.LeadingZeroIgnored | src/merge_mgf.py:9 | `int("0" + d) == int(d)` for every digit string `d`, so leading zeros never change a key entry |
| NaturalKey.Lower | src/merge_mgf.py:9 | `text.lower()` on ASCII: same length, and no upper-case letter is left |
| NaturalKey.LowerChar | src/merge_mgf.py:9 | lower-casing one character leaves no upper-case letter, keeps digits digits and leaves every non-upper-case character alone |
| NaturalKey.TextRunLength | src/merge_mgf.py:8 | the leading digit-free stretch is as long as possible: no digit before it ends, and a digit right where it ends |
| NaturalKey.DigitRunLength | src/merge_mgf.py:8 | the leading digit run is maximal: all digits, and a non-digit or the end right after it |
| NaturalKey.SplitIsDecomposition | src/merge_mgf.py:8-10 | the split alternates digit-free text with non-empty digit runs, the text between two runs is non-empty (so runs are maximal), and the pieces join back into the name |
| NaturalKey.SplitUnique | src/merge_mgf.py:8-10 | any decomposition of a name into digit-free text and maximal runs is the split (the split is determined by the name) |
| NaturalKey.DecompositionLength | src/merge_mgf.py:8-10 | a decomposition holds 2k+1 pieces, where k is the number of maximal digit runs of the joined string, counted independently |
| NaturalKey.DecompositionAt | src/merge_mgf.py:8-10 | in a decomposition, even positions hold digit-free text and odd positions hold non-empty digit strings |
| NaturalKey.Pieces | src/merge_mgf.py:9-10 | the comprehension maps each piece of the split, position by position |
| NaturalKey.KeyShape | src/merge_mgf.py:8-10 | the key has 2k+1 entries for k digit runs; even entries are lower-cased text with no digit and no upper case; odd entries are the integer value of a non-empty digit run |
| NaturalKey.KeyAlternates | src/merge_mgf.py:9-10 | key entries are text exactly at even positions, so two keys line up text against text and integer against integer |
| NaturalKey.LowerKeepsDigits | src/merge_mgf.py:9 | lower-casing keeps digit-free text digit-free, keeps a digit string unchanged, and does not change `isdigit` |
| NaturalKey.LowerDecomposition | src/merge_mgf.py:8-10 | lower-casing every piece of a decomposition gives a decomposition of the lower-cased name |
| NaturalKey.PieceOfLower | src/merge_mgf.py:9 | each key entry is unchanged when its text is lower-cased first |
| NaturalKey.KeyIgnoresCase | src/merge_mgf.py:8-10 | `natural_sort(name.lower()) == natural_sort(name)` |
| NaturalKey.DecimalString | src/merge_mgf.py:21 | `str(scan_nr)` is a non-empty string of digits without a leading zero |
| NaturalKey.DecimalRoundTrip | src/merge_mgf.py:21 | `int(str(n)) == n` |
| NaturalKey.DecimalStringInjective | src/merge_mgf.py:21 | different counters are written as different `scans` texts |
| NaturalKey.CaseAndLeadingZerosIgnored | src/merge_mgf.py:9 | "A1.mgf" and "a01.mgf" both get the key ["a", 1, ".mgf"] |
| NaturalKey.KeyOfThreeParts | src/merge_mgf.py:9-10 | a name made of text, one digit run and digit-free text has the three-entry key of those parts |
| KeyOrder.CompareText | src/merge_mgf.py:17 | `str` comparison: the first differing character decides, and a proper prefix comes first (definition; its properties are the Text lemmas below) |
| KeyOrder.ComparePiece | src/merge_mgf.py:17 | `<` on two key entries: strings as strings, integers as integers, a string against an integer is the `TypeError` case `None` (definition) |
| KeyOrder.CompareKeys | src/merge_mgf.py:17 | `list` comparison: the first unequal pair of entries decides, a shorter list that is a prefix comes first (definition) |
| KeyOrder.NameLess | src/merge_mgf.py:17 | `natural_sort(x) < natural_sort(y)`, the comparison `sorted` makes (definition) |
| KeyOrder.NameLe | src/merge_mgf.py:17 | `x` may precede `y`: their keys compare less or equal (definition; `NameLeIsNotLess` ties it to `NameLess`) |
| KeyOrder.TextEqual | src/merge_mgf.py:17 | two strings compare equal exactly when they are the same string |
| KeyOrder.TextFlip | src/merge_mgf.py:17 | swapping two strings flips their comparison |
| KeyOrder.TextLessTransitive | src/merge_mgf.py:17 | string `<` is transitive |
| KeyOrder.PieceEqual | src/merge_mgf.py:17 | two key entries compare equal exactly when they are the same entry |
| KeyOrder.PieceFlip | src/merge_mgf.py:17 | swapping two key entries flips their comparison, including the `TypeError` case |
| KeyOrder.PieceLessTransitive | src/merge_mgf.py:17 | `<` on key entries is transitive |
| KeyOrder.KeysEqual | src/merge_mgf.py:17 | two key lists compare equal exactly when they are equal |
| KeyOrder.KeysFlip | src/merge_mgf.py:17 | swapping two key lists flips their comparison |
| KeyOrder.KeysLeTransitive | src/merge_mgf.py:17 | "not greater" on key lists is transitive |
| KeyOrder.SameKindsCompare | src/merge_mgf.py:9-10 | lists whose entries agree in kind position by position always compare without `TypeError` |
| KeyOrder.KeysComparable | src/merge_mgf.py:9-10 | comparing the keys of any two names never raises `TypeError` |
| KeyOrder.NameLeReflexive | src/merge_mgf.py:17 | every name may precede itself |
| KeyOrder.NameLeTotal | src/merge_mgf.py:17 | of any two names, one may precede the other |
| KeyOrder.NameLeTransitive | src/merge_mgf.py:17 | the natural order is transitive |
| KeyOrder.NameTie | src/merge_mgf.py:17 | two names tie in both directions exactly when their keys are equal |
| KeyOrder.NameLeIsNotLess | src/merge_mgf.py:17 | `x` may precede `y` exactly when `key(y) < key(x)` is false, the only comparison `sorted` makes |
| KeyOrder.NumericNotLexical | src/merge_mgf.py:9 | "a2.mgf" sorts before "a10.mgf", although as plain strings "a2.mgf" is the greater |
| KeyOrder.NumberedKeysCompare | src/merge_mgf.py:9 | keys "a<m>.mgf" and "a<n>.mgf" compare as m and n |
| KeyOrder.KeyOfDigits | src/merge_mgf.py:9-10 | the key of "a" + digits + ".mgf" is ["a", value of the digits, ".mgf"] |
| StableSort.Insert | src/merge_mgf.py:17 | one insertion step of the sort: the result is one longer and holds the inserted item |
| StableSort.Sort | src/merge_mgf.py:17 | `sorted`: the result has the input's length; `SortIsSortedPermutation` and `SortIsStable` characterise it |
| StableSort.Filter | src/merge_mgf.py:18 | the items a test accepts, in their order: never longer than the input; `FilterMembers` characterises it |
| StableSort.PreorderReflexive | src/merge_mgf.py:17 | the sort's order lets every item precede itself |
| StableSort.InsertPermutes | src/merge_mgf.py:17 | insertion adds exactly the inserted item |
| StableSort.InsertSorted | src/merge_mgf.py:17 | inserting into a sorted list keeps it sorted |
| StableSort.InsertSameKey | src/merge_mgf.py:17 | inserting an item puts it first in its key class and leaves other classes alone |
| StableSort.SortPermutes | src/merge_mgf.py:17 | the sort returns a permutation of its input |
| StableSort.SortSorted | src/merge_mgf.py:17 | the sort returns a list in order |
| StableSort.SortIsSortedPermutation | src/merge_mgf.py:17 | the sort returns a permutation of its input, in order |
| StableSort.SortIsStable | src/merge_mgf.py:17 | items with equal keys keep their input order |
| StableSort.SameKeyMembers | src/merge_mgf.py:17 | a key class holds only items of the list with that key |
| StableSort.SameFront | src/merge_mgf.py:17 | two sorted lists with the same key classes start with the same item |
| StableSort.StableSortUnique | src/merge_mgf.py:17 | two sorted lists with the same key classes are equal, so every stable sort returns the same list |
| StableSort.FilterConcat | src/merge_mgf.py:18 | filtering distributes over concatenation |
| StableSort.FilterMembers | src/merge_mgf.py:18 | the filtered list holds exactly the accepted items |
| StableSort.FilterNone | src/merge_mgf.py:18 | when no item is accepted, the filtered list is empty |
| StableSort.FilterSorted | src/merge_mgf.py:17-18 | filtering a sorted list leaves it sorted |
| StableSort.SameKeyFilter | src/merge_mgf.py:17-18 | each key class of a filtered list is that class, filtered |
| StableSort.FilterSortCommute | src/merge_mgf.py:17-18 | filtering a stably sorted list equals stably sorting the filtered list |
| NaturalSort.SortNames | src/merge_mgf.py:17 | `sorted(listing, key=natural_sort)`: same length as the listing; `SortNamesIsStableSort` characterises it |
| NaturalSort.NaturalOrderIsKeyPreorder | src/merge_mgf.py:17 | the natural order is a total preorder whose ties are exactly equal keys |
| NaturalSort.SortNamesIsStableSort | src/merge_mgf.py:17 | `sorted(listing, key=natural_sort)` is a permutation of the listing, in natural order, with equal-key names in listing order |
| NaturalSort.NaturalOrderExample | src/merge_mgf.py:17 | ["a2.mgf", "a10.mgf", "a1.mgf"] sorts to ["a1.mgf", "a2.mgf", "a10.mgf"] |
| NaturalSort.SortThree | src/merge_mgf.py:17 | three names "a<m>.mgf", "a<n>.mgf", "a<p>.mgf" listed in the order middle, largest, smallest (p < m < n) sort to smallest, middle, largest |
| MergeMgf.EndsWith | src/merge_mgf.py:18 | `str.endswith`: the suffix fits and the name's last characters are the suffix (definition) |
| MergeMgf.IsMgfName | src/merge_mgf.py:18 | `filename.endswith('.mgf')` (definition) |
| MergeMgf.Selected | src/merge_mgf.py:17-18 | the files the loop reads: the sorted listing, keeping ".mgf" names; never more than the listing; `SelectedFiles` characterises it |
| MergeMgf.WithScan | src/merge_mgf.py:21 | `params['scans'] = str(n)`: the peaks are kept and the parameter names gain `scans` |
| MergeMgf.Renumbered | src/merge_mgf.py:20-23 | the spectra numbered `first`, `first + 1`, …: as many as given; `RenumberedScans` characterises them |
| MergeMgf.Gathered | src/merge_mgf.py:20-22 | the spectra of the named files, file after file (definition; `GatheredLayout` and `GatheredLength` characterise it) |
| MergeMgf.ProgressLines | src/merge_mgf.py:19 | the lines printed for the named files: one per file; `ProgressLinesAt` gives each line |
| MergeMgf.MergeResult | src/merge_mgf.py:15-23 | what the script leaves behind: on success the renumbered spectra, one line per file and the counter one past the last number; on a read failure the failing file, the lines through it and the counter as that file found it (definition, the contract of `Merge`) |
| MergeMgf.FirstUnreadable | src/merge_mgf.py:20 | the index of the first selected file the reader fails on (every earlier one is readable), or the count if there is none |
| MergeMgf.Merge | src/merge_mgf.py:15-23 | if every selected file is readable, the result is the selected files' spectra, renumbered from 1 in file order; one progress line is printed per file and the counter ends at 1 + the spectrum count. Otherwise the result is the failure on the first unreadable file, with progress lines up to and including it and nothing written |
| MergeMgf.MergeInOrder | src/merge_mgf.py:17-23 | the same, for the loop over the already sorted listing |
| MergeMgf.AppendRenumbered | src/merge_mgf.py:20-23 | the inner loop appends the file's spectra renumbered from the current counter and advances the counter by their count |
| MergeMgf.SelectedIsSortedMgfNames | src/merge_mgf.py:17-18 | sorting then keeping ".mgf" names equals keeping ".mgf" names then sorting |
| MergeMgf.SelectedFiles | src/merge_mgf.py:17-18 | the files read are exactly the listing's ".mgf" names, each as often as listed, in natural order |
| MergeMgf.MergedOutputIsReread | src/merge_mgf.py:17-18 | a "merged.mgf" already in the directory is read as an input |
| MergeMgf.NoMgfNamesMergesNothing | src/merge_mgf.py:15-23 | a listing without ".mgf" names reads nothing and prints nothing; the counter stays 1 and an empty list is written |
| MergeMgf.SelectionExample | src/merge_mgf.py:17-18 | ["a2.mgf", "readme.txt", "a10.mgf", "a1.mgf"] reads "a1.mgf", "a2.mgf", "a10.mgf" in that order |
| MergeMgf.SelectionSkipsSecond | src/merge_mgf.py:17-18 | with one non-".mgf" name second among four names, the files read are the other three, naturally sorted |
| MergeMgf.RenumberedScans | src/merge_mgf.py:21 | renumbering keeps the peaks and every parameter but `scans`; the i-th spectrum's `scans` is exactly `str(first + i)` (digits without a leading zero) and reads back as first + i, so the output holds "1" … "N" in order |
| MergeMgf.ScansDistinct | src/merge_mgf.py:21-23 | no two merged spectra share a `scans` value |
| MergeMgf.GatheredConcat | src/merge_mgf.py:20-22 | the spectra of two runs of files are the first run's followed by the second's |
| MergeMgf.GatheredLength | src/merge_mgf.py:20-23 | the merged list holds the sum of the selected files' spectrum counts |
| MergeMgf.GatheredLayout | src/merge_mgf.py:20-22 | the j-th spectrum of the k-th file sits right after all spectra of earlier files |
| MergeMgf.ProgressLinesAt | src/merge_mgf.py:19 | one line per file, naming it with 1 + the number of spectra in earlier files |
| MergeMgf.ProgressNamesFirstScan | src/merge_mgf.py:19-21 | the number printed for a non-empty file is the `scans` value of its first spectrum |
| MergeMgf.EmptyFileSharesNumber | src/merge_mgf.py:19 | a file without spectra prints the same number as the next file |
| MergeMgf.ReadStep | src/merge_mgf.py:20-23 | reading one more file appends its spectra numbered on from the counter |
| MergeMgf.ProgressSnoc | src/merge_mgf.py:19 | opening one more file adds one progress line with the current counter |
| MergeMgf.FailureIsFirstUnreadable | src/merge_mgf.py:18-20 | the file the loop fails on is the first unreadable selected file |
| MergeMgf.FilterMgfSnoc | src/merge_mgf.py:18 | one more listing entry extends the selection by that name exactly when it ends in ".mgf" |

## Left out

- Command line and file system: `sys.argv`, `os.listdir` and `os.path.join`. The listing is a parameter, and so are the file contents.
- The MGF reader and writer (`pyteomics.mgf`) and the MGF text grammar. A file's spectra are given in `files`; the list handed to `mgf.write` is the `Merged` outcome, and writing it is not modelled.
- MergeMgf.Merge: a reader failure is modelled as happening before the file's first spectrum. A lazy reader failing part-way has already appended that file's earlier spectra and advanced the counter. The script then stops without writing, so the progress lines and the written output are the same either way.
- MergeMgf.Spectrum: a spectrum is a value. The script changes each dictionary in place, but the reader yields a fresh dictionary per spectrum, so no other reference to it can observe the change. Parameter values are text (`Str`) or any other value (`Other`), which the model carries along unread.
- `print` formatting: a progress line is the pair (file name, counter), without the tab and newline.
- NaturalKey.Lower: `str.lower` and `str.isdigit` are modelled on ASCII only. Other characters are kept as they are. A non-ASCII digit, which `isdigit` accepts but `[0-9]` does not split on, is out of scope.
- NaturalSort.SortNames: Python's `sorted` (Timsort) is modelled as a stable insertion sort. `StableSort.StableSortUnique` shows that every stable sort by the same order returns the same list.
- Write failures and a missing directory end the script before or after the modelled loop. They are not modelled.
- A spectrum without a `params` dictionary would raise `KeyError`. The reader always provides one, so `params` is always present in the model.
