/** What the form shows for a state: the label under each drop zone, the
    background of each category card, and the submit button's disabled
    flag, label and colour. */
module Display {
  import opened Lists
  import opened Options
  import opened Categories
  import opened UploadForm
  import opened Submission

  /** The label of a drop zone with no files chosen. */
  const Placeholder: string := "Drag your file(s) or browse"

  function FileNames(fs: seq<File>): seq<string>
  {
    seq(|fs|, i requires 0 <= i < |fs| => fs[i].name)
  }

  /** `renderSelectedFiles(t)`: the placeholder for an empty list, otherwise
      the file names joined by ", ": each name at its offset, in file order. */
  function RenderSelectedFiles(st: State, t: Category): (r: string)
    ensures |st.files.Get(t)| == 0 ==> r == Placeholder
    ensures forall k :: 0 <= k < |st.files.Get(t)| ==>
      && Offset(FileNames(st.files.Get(t)), ", ", k) + |st.files.Get(t)[k].name| <= |r|
      && r[Offset(FileNames(st.files.Get(t)), ", ", k)..][..|st.files.Get(t)[k].name|]
         == st.files.Get(t)[k].name
  {
    var fs := st.files.Get(t);
    if |fs| == 0 then Placeholder
    else
      var r := Join(FileNames(fs), ", ");
      assert forall k :: 0 <= k < |fs| ==>
        && Offset(FileNames(fs), ", ", k) + |fs[k].name| <= |r|
        && r[Offset(FileNames(fs), ", ", k)..][..|fs[k].name|] == fs[k].name
      by {
        forall k | 0 <= k < |fs|
          ensures Offset(FileNames(fs), ", ", k) + |fs[k].name| <= |r|
          ensures r[Offset(FileNames(fs), ", ", k)..][..|fs[k].name|] == fs[k].name
        {
          JoinAt(FileNames(fs), ", ", k);
        }
      }
      r
  }

  /** The label laid out in full, whatever the names contain (commas
      included): the `k`-th name at its offset, ", " after every name but
      the last, and nothing after the last name. */
  lemma RenderLayout(st: State, t: Category, k: nat)
    requires k < |st.files.Get(t)|
    ensures var names := FileNames(st.files.Get(t));
      var r := RenderSelectedFiles(st, t);
      && Offset(names, ", ", k) + |names[k]| <= |r|
      && r[Offset(names, ", ", k)..Offset(names, ", ", k) + |names[k]|] == st.files.Get(t)[k].name
      && (k + 1 < |names| ==>
            (Offset(names, ", ", k + 1) <= |r|
             && r[Offset(names, ", ", k) + |names[k]|..Offset(names, ", ", k + 1)] == ", "))
      && (k + 1 == |names| ==> |r| == Offset(names, ", ", k) + |names[k]|)
  {
    JoinAt(FileNames(st.files.Get(t)), ", ", k);
  }

  /** An empty file list for `t` (a selection cleared to nothing) brings
      back the placeholder. */
  lemma RenderAfterClear(st: State, t: Category)
    ensures RenderSelectedFiles(SetFiles(st, t, Some([])), t) == Placeholder
  {
  }

  /** The label shows every chosen name: when no name contains a comma,
      cutting the label at ", " gives back exactly the names, in order. */
  lemma RenderShowsNames(st: State, t: Category)
    requires |st.files.Get(t)| > 0
    requires forall i :: 0 <= i < |st.files.Get(t)| ==> ',' !in st.files.Get(t)[i].name
    ensures SplitList(RenderSelectedFiles(st, t)) == FileNames(st.files.Get(t))
  {
    SplitJoin(FileNames(st.files.Get(t)));
  }

  /** The label is as long as the names plus ", " between neighbours. */
  lemma RenderLength(st: State, t: Category)
    requires |st.files.Get(t)| > 0
    ensures |RenderSelectedFiles(st, t)| == TotalLength(FileNames(st.files.Get(t))) + 2 * (|st.files.Get(t)| - 1)
  {
    JoinShape(FileNames(st.files.Get(t)), ", ");
  }

  /** Choosing files for `t` changes only `t`'s label; a null file list
      changes none. */
  lemma RenderAfterSetFiles(st: State, t: Category, picked: Option<seq<File>>, u: Category)
    requires picked.None? || u != t
    ensures RenderSelectedFiles(SetFiles(st, t, picked), u) == RenderSelectedFiles(st, u)
  {
  }

  /** `getBackgroundColor(t)`: highlighted exactly when `t` is selected. */
  function BackgroundColor(st: State, t: Category): (r: string)
    ensures r == "bg-pink-100" <==> t in st.selected
    ensures r == "bg-gray-200" <==> t !in st.selected
  {
    if t in st.selected then "bg-pink-100" else "bg-gray-200"
  }

  /** A checkbox change flips the card of its own category and no other. */
  lemma ToggleFlipsBackground(st: State, c: Category, d: Category)
    ensures BackgroundColor(ToggleCategory(st, c), d) != BackgroundColor(st, d) <==> d == c
  {
  }

  /** `disabled={!selectedTypes.length || loading}` */
  function ButtonDisabled(st: State): (r: bool)
    ensures r <==> |st.selected| == 0 || st.loading
  {
    !(|st.selected| > 0) || st.loading
  }

  /** `{loading ? "Analyzing..." : "Analyze"}` */
  function ButtonLabel(st: State): (r: string)
    ensures r == "Analyzing..." <==> st.loading
    ensures !st.loading ==> r == "Analyze"
  {
    if st.loading then "Analyzing..." else "Analyze"
  }

  /** The button's background class: grey while loading, pink otherwise,
      so it turns grey together with the "Analyzing..." label. */
  function ButtonColor(st: State): (r: string)
    ensures r == "bg-gray-400" <==> ButtonLabel(st) == "Analyzing..."
    ensures r == "bg-[#FF69B4]" <==> !st.loading
  {
    if st.loading then "bg-gray-400" else "bg-[#FF69B4]"
  }

  /** An enabled button always gets past the guard and sends a request. */
  lemma EnabledButtonSends(st: State)
    requires !ButtonDisabled(st)
    ensures BeginSubmit(st).Sending?
  {
  }

  /** Once a request is under way the button is disabled and reads
      "Analyzing...", until the response settles. */
  lemma ButtonWhileSending(st: State, resp: Response)
    requires BeginSubmit(st).Sending?
    ensures ButtonDisabled(BeginSubmit(st).state)
    ensures ButtonLabel(BeginSubmit(st).state) == "Analyzing..."
    ensures !ButtonDisabled(Settle(BeginSubmit(st).state, resp).0)
    ensures ButtonLabel(Settle(BeginSubmit(st).state, resp).0) == "Analyze"
  {
  }

  /** On mount every drop zone shows the placeholder, every card is grey
      and the button is disabled. */
  lemma InitialDisplay(t: Category)
    ensures RenderSelectedFiles(Init(), t) == Placeholder
    ensures BackgroundColor(Init(), t) == "bg-gray-200"
    ensures ButtonDisabled(Init())
  {
  }
}
