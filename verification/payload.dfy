/** The multipart body `handleSubmit` assembles: for each selected
    category in selection order, one part per file in file order, named
    `${type.toLowerCase()}[${index}]` with the index counting from 0 within
    the category. */
module Payload {
  import opened Options
  import opened Lists
  import opened Categories
  import opened Decimal
  import opened UploadForm

  /** One `formData.append(key, file)` entry. */
  datatype Part = Part(key: string, file: File)

  /** The part name of the `i`-th file of category `c`, e.g. `mammogram[0]`. */
  function PartKey(c: Category, i: nat): string
  {
    LowerName(c) + "[" + ToDecimal(i) + "]"
  }

  /** Reads the category back from a part name by its first character. */
  function KeyCategory(key: string): (r: Option<Category>)
    ensures r.Some? ==> |key| > 0 && key[0] == Initial(r.value)
  {
    if |key| == 0 then None
    else if key[0] == 'm' then Some(Mammogram)
    else if key[0] == 'u' then Some(Ultrasound)
    else if key[0] == 'b' then Some(Biopsy)
    else None
  }

  /** Reads a part name `lower(type)[i]` back into its category and index;
      anything else is not a part name. */
  function ParseKey(key: string): Option<(Category, nat)>
  {
    match KeyCategory(key)
    case None => None
    case Some(c) =>
      var n := |LowerName(c)| + 1;
      if |key| > n + 1 && key[..n] == LowerName(c) + "[" && key[|key| - 1] == ']'
         && AllDigits(key[n..|key| - 1])
      then Some((c, ParseDecimal(key[n..|key| - 1])))
      else None
  }

  /** Reading a part name gives back the category and index it was built from. */
  lemma ParseKeyRoundTrip(c: Category, i: nat)
    ensures ParseKey(PartKey(c, i)) == Some((c, i))
  {
    var key := PartKey(c, i);
    var n := |LowerName(c)| + 1;
    LowerNameInitial(c);
    assert key[0] == LowerName(c)[0];
    assert key[..n] == LowerName(c) + "[";
    assert key[n..|key| - 1] == ToDecimal(i);
    ParseToDecimal(i);
  }

  /** A part name determines both the category and the index. */
  lemma PartKeyInjective(c: Category, i: nat, d: Category, j: nat)
    ensures PartKey(c, i) == PartKey(d, j) ==> c == d && i == j
  {
    ParseKeyRoundTrip(c, i);
    ParseKeyRoundTrip(d, j);
  }

  /** `p` is named `lower(c)[i]` for a selected `c` with an `i`-th file,
      and carries that file. */
  predicate PartIsFileOf(p: Part, sel: seq<Category>, files: FileMap)
  {
    match ParseKey(p.key)
    case None => false
    case Some((c, i)) => c in sel && i < |files.Get(c)| && p.file == files.Get(c)[i]
  }

  lemma PartIsFileOfKey(c: Category, i: nat, sel: seq<Category>, files: FileMap)
    requires c in sel && i < |files.Get(c)|
    ensures PartIsFileOf(Part(PartKey(c, i), files.Get(c)[i]), sel, files)
  {
    ParseKeyRoundTrip(c, i);
  }

  lemma PartIsFileOfWider(p: Part, sel: seq<Category>, sel': seq<Category>, files: FileMap)
    requires PartIsFileOf(p, sel, files)
    requires forall c :: c in sel ==> c in sel'
    ensures PartIsFileOf(p, sel', files)
  {
  }

  /** The parts one category contributes: the inner `files[type].forEach`. */
  function CategoryParts(c: Category, fs: seq<File>): seq<Part>
  {
    seq(|fs|, i requires 0 <= i < |fs| => Part(PartKey(c, i), fs[i]))
  }

  /** The whole body, accumulated as the outer `selectedTypes.forEach` does:
      the parts of the earlier categories, then those of the last one. */
  function BuildParts(sel: seq<Category>, files: FileMap): seq<Part>
  {
    if |sel| == 0 then []
    else
      var last := sel[|sel| - 1];
      BuildParts(sel[..|sel| - 1], files) + CategoryParts(last, files.Get(last))
  }

  /** The number of files chosen for the categories in `sel`, summed from the front. */
  function FileCount(sel: seq<Category>, files: FileMap): nat
  {
    if |sel| == 0 then 0 else |files.Get(sel[0])| + FileCount(sel[1..], files)
  }

  lemma {:induction false} FileCountAppend(a: seq<Category>, b: seq<Category>, files: FileMap)
    ensures FileCount(a + b, files) == FileCount(a, files) + FileCount(b, files)
  {
    if |a| == 0 {
      assert a + b == b;
    } else {
      assert (a + b)[1..] == a[1..] + b;
      FileCountAppend(a[1..], b, files);
    }
  }

  /** The body has one part per chosen file of each selected category. */
  lemma {:induction false} PayloadLength(sel: seq<Category>, files: FileMap)
    ensures |BuildParts(sel, files)| == FileCount(sel, files)
  {
    if |sel| > 0 {
      var n := |sel| - 1;
      PayloadLength(sel[..n], files);
      assert sel == sel[..n] + [sel[n]];
      FileCountAppend(sel[..n], [sel[n]], files);
    }
  }

  /** Placement: the `i`-th file of the `k`-th selected category sits after
      all files of the categories selected before it, under the key
      `lower(type)[i]`, carrying exactly that file. */
  lemma {:induction false} PayloadAt(sel: seq<Category>, files: FileMap, k: nat, i: nat)
    requires k < |sel|
    requires i < |files.Get(sel[k])|
    ensures FileCount(sel[..k], files) + i < |BuildParts(sel, files)|
    ensures BuildParts(sel, files)[FileCount(sel[..k], files) + i]
         == Part(PartKey(sel[k], i), files.Get(sel[k])[i])
  {
    var n := |sel| - 1;
    var prefix := BuildParts(sel[..n], files);
    PayloadLength(sel[..n], files);
    if k == n {
      assert sel[..k] == sel[..n];
    } else {
      PayloadAt(sel[..n], files, k, i);
      assert sel[..n][..k] == sel[..k];
      assert sel[..n][k] == sel[k];
    }
  }

  /** Conversely, every part's name reads back as some selected category
      and an index within that category's files, and the part carries
      exactly the file at that index. */
  lemma {:induction false} PayloadMembers(sel: seq<Category>, files: FileMap)
    ensures forall a :: 0 <= a < |BuildParts(sel, files)| ==>
      PartIsFileOf(BuildParts(sel, files)[a], sel, files)
  {
    if |sel| > 0 {
      var n := |sel| - 1;
      var last := sel[n];
      var prefix := BuildParts(sel[..n], files);
      var parts := BuildParts(sel, files);
      PayloadMembers(sel[..n], files);
      forall a | 0 <= a < |parts|
        ensures PartIsFileOf(parts[a], sel, files)
      {
        if a < |prefix| {
          assert parts[a] == prefix[a];
          PartIsFileOfWider(prefix[a], sel[..n], sel, files);
        } else {
          var i := a - |prefix|;
          assert parts[a] == Part(PartKey(last, i), files.Get(last)[i]);
          PartIsFileOfKey(last, i, sel, files);
        }
      }
    }
  }

  /** No two parts of a body share a name. */
  predicate DistinctKeys(parts: seq<Part>)
  {
    forall a, b :: 0 <= a < b < |parts| ==> parts[a].key != parts[b].key
  }

  /** With no category selected twice, no two parts share a name. */
  lemma {:induction false} PayloadKeysDistinct(sel: seq<Category>, files: FileMap)
    requires NoDuplicates(sel)
    ensures DistinctKeys(BuildParts(sel, files))
  {
    if |sel| > 0 {
      var n := |sel| - 1;
      var last := sel[n];
      var prefix := BuildParts(sel[..n], files);
      var tail := CategoryParts(last, files.Get(last));
      var parts := BuildParts(sel, files);
      assert parts == prefix + tail;
      assert last !in sel[..n];
      PayloadKeysDistinct(sel[..n], files);
      PayloadMembers(sel[..n], files);
      forall a, b | 0 <= a < b < |parts|
        ensures parts[a].key != parts[b].key
      {
        if b < |prefix| {
          assert parts[a] == prefix[a] && parts[b] == prefix[b];
        } else if a >= |prefix| {
          PartKeyInjective(last, a - |prefix|, last, b - |prefix|);
        } else {
          assert parts[a] == prefix[a];
          assert PartIsFileOf(prefix[a], sel[..n], files);
          ParseKeyRoundTrip(last, b - |prefix|);
        }
      }
    }
  }

  /** The assembly loop of `handleSubmit`: two nested `forEach` calls
      appending one part per file. */
  method AssemblePayload(sel: seq<Category>, files: FileMap) returns (parts: seq<Part>)
    ensures parts == BuildParts(sel, files)
  {
    parts := [];
    var k := 0;
    while k < |sel|
      invariant 0 <= k <= |sel|
      invariant parts == BuildParts(sel[..k], files)
    {
      var c := sel[k];
      var fs := files.Get(c);
      ghost var before := parts;
      var i := 0;
      while i < |fs|
        invariant 0 <= i <= |fs|
        invariant parts == before + CategoryParts(c, fs)[..i]
      {
        parts := parts + [Part(PartKey(c, i), fs[i])];
        i := i + 1;
      }
      assert CategoryParts(c, fs)[..|fs|] == CategoryParts(c, fs);
      assert sel[..k + 1][..k] == sel[..k];
      k := k + 1;
    }
    assert sel[..|sel|] == sel;
  }
}
