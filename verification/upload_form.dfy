/** The state of the image-upload form and its two editing handlers:
    choosing files for a category (`handleFileChange`) and ticking or
    clearing a category's checkbox (`handleCheckboxChange`). */
module UploadForm {
  import opened Options
  import opened Lists
  import opened Categories

  /** A chosen file; only its name is observable to the form. */
  datatype File = File(name: string)

  /** The per-category file lists: a fixed map with exactly the three
      category keys, created with all three and only ever assigned at
      those keys. */
  datatype FileMap = FileMap(mammogram: seq<File>, ultrasound: seq<File>, biopsy: seq<File>)
  {
    /** `files[c]` */
    function Get(c: Category): seq<File>
    {
      match c
      case Mammogram => mammogram
      case Ultrasound => ultrasound
      case Biopsy => biopsy
    }

    /** `{ ...files, [c]: fs }` */
    function Set(c: Category, fs: seq<File>): (r: FileMap)
      ensures r.Get(c) == fs
      ensures forall d: Category :: d != c ==> r.Get(d) == Get(d)
    {
      match c
      case Mammogram => this.(mammogram := fs)
      case Ultrasound => this.(ultrasound := fs)
      case Biopsy => this.(biopsy := fs)
    }
  }

  /** `files`, `selectedTypes` and `loading`. */
  datatype State = State(files: FileMap, selected: seq<Category>, loading: bool)

  /** What the form keeps true of its selection: each category at most once. */
  predicate Valid(st: State)
  {
    NoDuplicates(st.selected)
  }

  /** The state on mount: three empty file lists, nothing selected, not loading. */
  function Init(): (r: State)
    ensures forall c: Category :: r.files.Get(c) == []
    ensures |r.selected| == 0
    ensures !r.loading
    ensures Valid(r)
  {
    State(FileMap([], [], []), [], false)
  }

  /** `handleFileChange(e, t)`: a null file list (the case the
      `if (e.target.files)` test excludes) changes
      nothing; otherwise the list for `t` is replaced wholesale by the new
      one, and nothing else changes. */
  function SetFiles(st: State, t: Category, picked: Option<seq<File>>): (r: State)
    ensures picked.None? ==> r == st
    ensures picked.Some? ==> r.files.Get(t) == picked.value
    ensures forall c: Category :: c != t ==> r.files.Get(c) == st.files.Get(c)
    ensures r.selected == st.selected && r.loading == st.loading
    ensures Valid(st) ==> Valid(r)
  {
    match picked
    case None => st
    case Some(fs) => st.(files := st.files.Set(t, fs))
  }

  /** Choosing files for the same category twice keeps only the second choice. */
  lemma SetFilesLastWins(st: State, t: Category, a: seq<File>, b: seq<File>)
    ensures SetFiles(SetFiles(st, t, Some(a)), t, Some(b)) == SetFiles(st, t, Some(b))
  {
  }

  /** Choosing files for two different categories gives the same state in either order. */
  lemma SetFilesCommute(st: State, t: Category, u: Category, a: seq<File>, b: seq<File>)
    requires t != u
    ensures SetFiles(SetFiles(st, t, Some(a)), u, Some(b))
         == SetFiles(SetFiles(st, u, Some(b)), t, Some(a))
  {
  }

  /** The checkbox update of the selection: a selected category is filtered
      out (every occurrence), an unselected one is appended at the end. */
  function Toggle(sel: seq<Category>, c: Category): (r: seq<Category>)
    ensures c in r <==> c !in sel
    ensures forall d: Category :: d != c ==> (d in r <==> d in sel)
    ensures c !in sel ==> r == sel + [c]
    ensures c in sel ==> IsSubsequence(r, sel) && multiset(r) == multiset(sel)[c := 0]
    ensures NoDuplicates(sel) ==> NoDuplicates(r)
  {
    if c in sel then
      WithoutKeepsOrder(sel, c);
      WithoutNoDuplicates(sel, c);
      Without(sel, c)
    else
      AppendNoDuplicates(sel, c);
      sel + [c]
  }

  /** `handleCheckboxChange` for the checkbox of `c`: only the selection changes. */
  function ToggleCategory(st: State, c: Category): (r: State)
    ensures r.files == st.files && r.loading == st.loading
    ensures c in r.selected <==> c !in st.selected
    ensures forall d: Category :: d != c ==> (d in r.selected <==> d in st.selected)
    ensures Valid(st) ==> Valid(r)
  {
    st.(selected := Toggle(st.selected, c))
  }

  /** In a duplicate-free selection, unticking a selected category removes
      exactly the one position holding it. */
  lemma ToggleRemovesOne(sel: seq<Category>, k: nat)
    requires NoDuplicates(sel)
    requires k < |sel|
    ensures Toggle(sel, sel[k]) == sel[..k] + sel[k + 1..]
    ensures |Toggle(sel, sel[k])| == |sel| - 1
  {
    WithoutAt(sel, k);
  }

  /** Ticking then unticking (or the reverse) restores which categories are selected. */
  lemma ToggleTwiceSameMembers(sel: seq<Category>, c: Category)
    ensures forall d: Category :: d in Toggle(Toggle(sel, c), c) <==> d in sel
  {
  }

  /** Ticking an unselected category and unticking it restores the list exactly. */
  lemma ToggleTwiceAbsent(sel: seq<Category>, c: Category)
    requires c !in sel
    ensures Toggle(Toggle(sel, c), c) == sel
  {
    WithoutAppend(sel, [c], c);
    WithoutAbsent(sel, c);
    assert Without([c], c) == [];
  }

  /** Unticking a selected category and ticking it again moves it to the end. */
  lemma ToggleTwicePresent(sel: seq<Category>, k: nat)
    requires NoDuplicates(sel)
    requires k < |sel|
    ensures Toggle(Toggle(sel, sel[k]), sel[k]) == sel[..k] + sel[k + 1..] + [sel[k]]
  {
    ToggleRemovesOne(sel, k);
  }

  /** For a duplicate-free selection, a double toggle restores the list
      exactly when the category was unselected or already last. */
  lemma ToggleTwiceRestores(sel: seq<Category>, c: Category)
    requires NoDuplicates(sel)
    ensures Toggle(Toggle(sel, c), c) == sel <==> c !in sel || sel[|sel| - 1] == c
  {
    if c !in sel {
      ToggleTwiceAbsent(sel, c);
    } else {
      var k :| 0 <= k < |sel| && sel[k] == c;
      ToggleTwicePresent(sel, k);
      var r := sel[..k] + sel[k + 1..] + [c];
      if k == |sel| - 1 {
        assert r == sel;
      } else {
        assert r[|r| - 1] == c;
        assert r != sel;
      }
    }
  }

  /** A concrete case where the list is not restored: unticking and
      re-ticking the first of two selected categories moves it behind the other. */
  lemma ToggleTwiceReorders()
    ensures Toggle(Toggle([Mammogram, Ultrasound], Mammogram), Mammogram) == [Ultrasound, Mammogram]
  {
    ToggleTwicePresent([Mammogram, Ultrasound], 0);
  }
}
