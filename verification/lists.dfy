/** The array operations the form relies on: `includes` is Dafny's `in`,
    `filter(y => y !== x)` is `Without`, `join(sep)` is `Join`; plus the
    predicates used to state what they preserve. */
module Lists {

  predicate NoDuplicates<T(==)>(s: seq<T>)
  {
    forall i, j :: 0 <= i < j < |s| ==> s[i] != s[j]
  }

  /** `a` is `b` with some elements dropped, the rest in their original order. */
  predicate IsSubsequence<T(==)>(a: seq<T>, b: seq<T>)
    decreases |b|
  {
    if |a| == 0 then true
    else if |b| == 0 then false
    else if a[0] == b[0] then IsSubsequence(a[1..], b[1..])
    else IsSubsequence(a, b[1..])
  }

  /** `s.filter(y => y !== x)`: every occurrence of `x` removed, every
      other element kept, in the original order. */
  function Without<T(==)>(s: seq<T>, x: T): (r: seq<T>)
    ensures x !in r
  {
    if |s| == 0 then []
    else
      assert s == [s[0]] + s[1..];
      if s[0] == x then Without(s[1..], x) else [s[0]] + Without(s[1..], x)
  }

  /** What filtering keeps: exactly the elements other than `x`, and in
      their original relative order. */
  lemma {:induction false} WithoutKeepsOrder<T>(s: seq<T>, x: T)
    ensures forall y :: y in Without(s, x) <==> y in s && y != x
    ensures multiset(Without(s, x)) == multiset(s)[x := 0]
    ensures IsSubsequence(Without(s, x), s)
  {
    if |s| > 0 {
      var rest := Without(s[1..], x);
      WithoutKeepsOrder(s[1..], x);
      assert s == [s[0]] + s[1..];
      if s[0] == x {
        SubsequenceOfTail(rest, s);
      } else {
        assert ([s[0]] + rest)[1..] == rest;
      }
    }
  }

  lemma {:induction false} SubsequenceOfTail<T>(a: seq<T>, b: seq<T>)
    requires |b| > 0
    requires IsSubsequence(a, b[1..])
    ensures IsSubsequence(a, b)
    decreases |a| + |b|
  {
    if |a| != 0 && a[0] == b[0] {
      SubsequenceDropHead(a, b[1..]);
    }
  }

  lemma {:induction false} SubsequenceDropHead<T>(a: seq<T>, b: seq<T>)
    requires |a| > 0
    requires IsSubsequence(a, b)
    ensures IsSubsequence(a[1..], b)
    decreases |a| + |b|
  {
    if a[0] != b[0] {
      SubsequenceDropHead(a, b[1..]);
    }
    SubsequenceOfTail(a[1..], b);
  }

  /** Filtering out an absent element changes nothing. */
  lemma {:induction false} WithoutAbsent<T>(s: seq<T>, x: T)
    requires x !in s
    ensures Without(s, x) == s
  {
    if |s| > 0 {
      assert s[0] != x;
      WithoutAbsent(s[1..], x);
      assert s == [s[0]] + s[1..];
    }
  }

  /** Filtering distributes over concatenation. */
  lemma {:induction false} WithoutAppend<T>(a: seq<T>, b: seq<T>, x: T)
    ensures Without(a + b, x) == Without(a, x) + Without(b, x)
  {
    if |a| == 0 {
      assert a + b == b;
    } else {
      assert (a + b)[1..] == a[1..] + b;
      assert (a + b)[0] == a[0];
      WithoutAppend(a[1..], b, x);
    }
  }

  /** In a list without duplicates, filtering a present element removes
      exactly the one position holding it. */
  lemma WithoutAt<T>(s: seq<T>, k: nat)
    requires NoDuplicates(s)
    requires k < |s|
    ensures Without(s, s[k]) == s[..k] + s[k + 1..]
  {
    var x, before, after := s[k], s[..k], s[k + 1..];
    NoDuplicatesSplit(s, k);
    assert s == before + [x] + after;
    WithoutSplice(before, x, after);
  }

  lemma NoDuplicatesSplit<T>(s: seq<T>, k: nat)
    requires NoDuplicates(s)
    requires k < |s|
    ensures s[k] !in s[..k] && s[k] !in s[k + 1..]
  {
    forall i | 0 <= i < k
      ensures s[..k][i] != s[k]
    {
      assert s[..k][i] == s[i];
    }
    var after := s[k + 1..];
    forall i | 0 <= i < |after|
      ensures after[i] != s[k]
    {
      assert after[i] == s[k + 1 + i];
    }
  }

  lemma WithoutSplice<T>(before: seq<T>, x: T, after: seq<T>)
    requires x !in before && x !in after
    ensures Without(before + [x] + after, x) == before + after
  {
    var bx := before + [x];
    WithoutAppend(bx, after, x);
    WithoutAppend(before, [x], x);
    WithoutAbsent(before, x);
    WithoutAbsent(after, x);
    var none := Without([x], x);
    assert none == [];
    assert Without(bx, x) == before + none;
    assert before + none == before;
  }

  /** Filtering keeps a list free of duplicates. */
  lemma WithoutNoDuplicates<T>(s: seq<T>, x: T)
    ensures NoDuplicates(s) ==> NoDuplicates(Without(s, x))
  {
    if !NoDuplicates(s) {
    } else if x in s {
      var k :| 0 <= k < |s| && s[k] == x;
      WithoutAt(s, k);
    } else {
      WithoutAbsent(s, x);
    }
  }

  /** Appending an absent element keeps a list free of duplicates. */
  lemma AppendNoDuplicates<T>(s: seq<T>, x: T)
    requires x !in s
    ensures NoDuplicates(s) ==> NoDuplicates(s + [x])
  {
  }

  /** `Array.prototype.join(sep)`: the empty list gives "", otherwise the
      elements with `sep` between neighbours. */
  function Join(xs: seq<string>, sep: string): string
  {
    if |xs| == 0 then ""
    else if |xs| == 1 then xs[0]
    else xs[0] + sep + Join(xs[1..], sep)
  }

  /** The total length of the strings in `xs`. */
  function TotalLength(xs: seq<string>): nat
  {
    if |xs| == 0 then 0 else |xs[0]| + TotalLength(xs[1..])
  }

  /** The joined text is as long as its pieces plus one separator between
      each neighbouring pair, and starts with the first piece. */
  lemma {:induction false} JoinShape(xs: seq<string>, sep: string)
    requires |xs| > 0
    ensures |Join(xs, sep)| == TotalLength(xs) + |sep| * (|xs| - 1)
    ensures Join(xs, sep)[..|xs[0]|] == xs[0]
  {
    if |xs| > 1 {
      JoinShape(xs[1..], sep);
    }
  }

  /** Where the `k`-th piece starts in the joined text: after every earlier
      piece, each followed by one separator. */
  function Offset(xs: seq<string>, sep: string, k: nat): nat
    requires k <= |xs|
  {
    if k == 0 then 0 else Offset(xs, sep, k - 1) + |xs[k - 1]| + |sep|
  }

  /** Dropping the first piece moves every later offset back by that piece
      and one separator. */
  lemma {:induction false} OffsetShift(xs: seq<string>, sep: string, k: nat)
    requires 0 < k <= |xs|
    ensures Offset(xs, sep, k) == |xs[0]| + |sep| + Offset(xs[1..], sep, k - 1)
  {
    if k > 1 {
      OffsetShift(xs, sep, k - 1);
    }
  }

  /** A slice lying wholly in the second operand of a concatenation. */
  lemma SliceOfAppend<T>(a: seq<T>, b: seq<T>, i: nat, j: nat)
    requires |a| <= i <= j <= |a| + |b|
    ensures (a + b)[i..j] == b[i - |a|..j - |a|]
  {
  }

  /** The `k`-th piece sits at its offset in the joined text. */
  lemma {:induction false} JoinPiece(xs: seq<string>, sep: string, k: nat)
    requires k < |xs|
    ensures Offset(xs, sep, k) + |xs[k]| <= |Join(xs, sep)|
    ensures Join(xs, sep)[Offset(xs, sep, k)..Offset(xs, sep, k) + |xs[k]|] == xs[k]
  {
    if |xs| > 1 {
      var head := xs[0] + sep;
      var rest := Join(xs[1..], sep);
      assert Join(xs, sep) == head + rest;
      if k == 0 {
        assert (head + rest)[..|xs[0]|] == xs[0];
      } else {
        JoinPiece(xs[1..], sep, k - 1);
        OffsetShift(xs, sep, k);
        var o := Offset(xs[1..], sep, k - 1);
        assert xs[1..][k - 1] == xs[k];
        SliceOfAppend(head, rest, |head| + o, |head| + o + |xs[k]|);
      }
    }
  }

  /** A separator follows every piece but the last. */
  lemma {:induction false} JoinSeparator(xs: seq<string>, sep: string, k: nat)
    requires k + 1 < |xs|
    ensures Offset(xs, sep, k + 1) <= |Join(xs, sep)|
    ensures Join(xs, sep)[Offset(xs, sep, k) + |xs[k]|..Offset(xs, sep, k + 1)] == sep
  {
    var head := xs[0] + sep;
    var rest := Join(xs[1..], sep);
    assert Join(xs, sep) == head + rest;
    if k == 0 {
      assert (head + rest)[|xs[0]|..|head|] == sep;
    } else {
      JoinSeparator(xs[1..], sep, k - 1);
      OffsetShift(xs, sep, k);
      OffsetShift(xs, sep, k + 1);
      var o := Offset(xs[1..], sep, k - 1);
      assert xs[1..][k - 1] == xs[k];
      SliceOfAppend(head, rest, |head| + o + |xs[k]|, Offset(xs, sep, k + 1));
    }
  }

  /** The joined text ends with the last piece. */
  lemma {:induction false} JoinEnd(xs: seq<string>, sep: string)
    requires |xs| > 0
    ensures |Join(xs, sep)| == Offset(xs, sep, |xs| - 1) + |xs[|xs| - 1]|
  {
    if |xs| > 1 {
      JoinEnd(xs[1..], sep);
      OffsetShift(xs, sep, |xs| - 1);
    }
  }

  /** The joined text laid out in full: the `k`-th piece sits at its offset,
      a separator follows every piece but the last, and the text ends with
      the last piece. This holds whatever the pieces contain. */
  lemma JoinAt(xs: seq<string>, sep: string, k: nat)
    requires k < |xs|
    ensures Offset(xs, sep, k) + |xs[k]| <= |Join(xs, sep)|
    ensures Join(xs, sep)[Offset(xs, sep, k)..Offset(xs, sep, k) + |xs[k]|] == xs[k]
    ensures k + 1 < |xs| ==>
      Offset(xs, sep, k + 1) <= |Join(xs, sep)| &&
      Join(xs, sep)[Offset(xs, sep, k) + |xs[k]|..Offset(xs, sep, k + 1)] == sep
    ensures k + 1 == |xs| ==> |Join(xs, sep)| == Offset(xs, sep, k) + |xs[k]|
  {
    JoinPiece(xs, sep, k);
    if k + 1 < |xs| {
      JoinSeparator(xs, sep, k);
    } else {
      JoinEnd(xs, sep);
    }
  }

  /** Cuts a text at every ", " (comma followed by a space): the reading
      direction of `join(", ")`. */
  function SplitList(s: string): (r: seq<string>)
    ensures |r| > 0
    decreases |s|
  {
    if |s| == 0 then [""]
    else if |s| >= 2 && s[0] == ',' && s[1] == ' ' then [""] + SplitList(s[2..])
    else
      var rest := SplitList(s[1..]);
      [[s[0]] + rest[0]] + rest[1..]
  }

  /** A text without commas is a single piece. */
  lemma {:induction false} SplitListNoComma(x: string)
    requires ',' !in x
    ensures SplitList(x) == [x]
  {
    if |x| > 0 {
      assert ',' !in x[1..];
      SplitListNoComma(x[1..]);
      assert [x[0]] + x[1..] == x;
    }
  }

  /** A comma-free first piece followed by ", " is cut off whole. */
  lemma {:induction false} SplitListCons(x: string, rest: string)
    requires ',' !in x
    ensures SplitList(x + ", " + rest) == [x] + SplitList(rest)
  {
    var s := x + ", " + rest;
    if |x| == 0 {
      assert s[2..] == rest;
    } else {
      assert s[0] == x[0];
      assert s[1..] == x[1..] + ", " + rest;
      assert ',' !in x[1..];
      SplitListCons(x[1..], rest);
      assert [x[0]] + x[1..] == x;
    }
  }

  /** `join(", ")` loses nothing when no piece contains a comma: cutting
      the joined text at ", " gives back the pieces. */
  lemma {:induction false} SplitJoin(xs: seq<string>)
    requires |xs| > 0
    requires forall i :: 0 <= i < |xs| ==> ',' !in xs[i]
    ensures SplitList(Join(xs, ", ")) == xs
  {
    if |xs| == 1 {
      SplitListNoComma(xs[0]);
    } else {
      SplitJoin(xs[1..]);
      SplitListCons(xs[0], Join(xs[1..], ", "));
    }
  }
}
