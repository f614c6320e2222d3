/** The string and array primitives the services use: `startsWith`,
    `split` on a one-character separator, `join`, and `find` / `findIndex`. */
module Text {

  /** `s.startsWith(prefix)`: `prefix` matches `s` character by character
      from the start. */
  function StartsWith(s: string, prefix: string): (r: bool)
    ensures r <==> |prefix| <= |s| && forall i :: 0 <= i < |prefix| ==> s[i] == prefix[i]
  {
    |prefix| <= |s| && s[..|prefix|] == prefix
  }

  /** `s.split(d)` for a one-character separator `d`: the pieces between the
      occurrences of `d`, in order. The result is never empty; the empty
      string gives `[""]`. */
  function Split(s: string, d: char): (parts: seq<string>)
    ensures |parts| >= 1
    ensures forall i :: 0 <= i < |parts| ==> d !in parts[i]
    ensures d !in s ==> parts == [s]
    ensures d in s ==> |parts| >= 2
    decreases |s|
  {
    if |s| == 0 then [""]
    else
      var rest := Split(s[1..], d);
      assert s == [s[0]] + s[1..];
      if s[0] == d then [""] + rest
      else [[s[0]] + rest[0]] + rest[1..]
  }

  /** `parts.join(d)`. */
  function Join(parts: seq<string>, d: char): string
  {
    if |parts| == 0 then ""
    else if |parts| == 1 then parts[0]
    else parts[0] + [d] + Join(parts[1..], d)
  }

  /** Joining the pieces back together gives the original string. */
  lemma {:induction false} JoinSplit(s: string, d: char)
    ensures Join(Split(s, d), d) == s
    decreases |s|
  {
    if |s| > 0 {
      var rest := Split(s[1..], d);
      JoinSplit(s[1..], d);
      if s[0] == d {
        assert ([""] + rest)[1..] == rest;
        assert s == [] + [d] + s[1..];
      } else if |rest| == 1 {
        assert s == [s[0]] + s[1..];
      } else {
        var parts := [[s[0]] + rest[0]] + rest[1..];
        assert parts[1..] == rest[1..];
        assert Join(rest, d) == rest[0] + [d] + Join(rest[1..], d);
        assert s == [s[0]] + s[1..];
      }
    }
  }

  /** One step of Split: the first character either separates or joins the
      first piece. */
  lemma SplitCons(c: char, t: string, d: char)
    ensures Split([c] + t, d) ==
      if c == d then [""] + Split(t, d) else [[c] + Split(t, d)[0]] + Split(t, d)[1..]
  {
    assert ([c] + t)[1..] == t;
  }

  /** Split of a non-empty string, one step unfolded. */
  lemma SplitStep(s: string, d: char)
    requires |s| > 0
    ensures Split(s, d) ==
      if s[0] == d then [""] + Split(s[1..], d)
      else [[s[0]] + Split(s[1..], d)[0]] + Split(s[1..], d)[1..]
  {
    assert s == [s[0]] + s[1..];
    SplitCons(s[0], s[1..], d);
  }

  /** A non-empty left operand gives up its first character. */
  lemma PeelFirst(a: string, b: string, d: char)
    requires |a| > 0
    ensures a + [d] + b == [a[0]] + (a[1..] + [d] + b)
  {
  }

  /** Gluing a character to the first piece commutes with appending pieces. */
  lemma GlueHead(c: char, ra: seq<string>, rb: seq<string>)
    requires |ra| > 0
    ensures [[c] + (ra + rb)[0]] + (ra + rb)[1..] == ([[c] + ra[0]] + ra[1..]) + rb
  {
    assert (ra + rb)[0] == ra[0];
    assert (ra + rb)[1..] == ra[1..] + rb;
  }

  /** Splitting at a separator distributes over the two sides. */
  lemma {:induction false} SplitConcat(a: string, b: string, d: char)
    ensures Split(a + [d] + b, d) == Split(a, d) + Split(b, d)
    decreases |a|
  {
    if |a| == 0 {
      assert a + [d] + b == [d] + b;
      SplitCons(d, b, d);
    } else {
      SplitConcat(a[1..], b, d);
      SplitConcatStep(a, b, d);
    }
  }

  /** The inductive step of SplitConcat, kept apart to keep its proof small. */
  lemma SplitConcatStep(a: string, b: string, d: char)
    requires |a| > 0
    requires Split(a[1..] + [d] + b, d) == Split(a[1..], d) + Split(b, d)
    ensures Split(a + [d] + b, d) == Split(a, d) + Split(b, d)
  {
    PeelFirst(a, b, d);
    SplitCons(a[0], a[1..] + [d] + b, d);
    SplitStep(a, d);
    if a[0] != d {
      GlueHead(a[0], Split(a[1..], d), Split(b, d));
    } else {
      SeparatorHead(Split(a[1..], d), Split(b, d));
    }
  }

  /** Bookkeeping for a leading separator in SplitConcatStep. */
  lemma SeparatorHead(ra: seq<string>, rb: seq<string>)
    ensures [""] + (ra + rb) == ([""] + ra) + rb
  {
  }

  /** Splitting a join of separator-free pieces gives back the pieces. */
  lemma {:induction false} SplitJoin(parts: seq<string>, d: char)
    requires |parts| >= 1
    requires forall i :: 0 <= i < |parts| ==> d !in parts[i]
    ensures Split(Join(parts, d), d) == parts
    decreases |parts|
  {
    if |parts| > 1 {
      SplitJoin(parts[1..], d);
      SplitConcat(parts[0], Join(parts[1..], d), d);
      assert parts == [parts[0]] + parts[1..];
    }
  }

  /** A separator-free prefix is glued to the first piece. */
  lemma {:induction false} SplitHeadPrefix(a: string, b: string, d: char)
    requires d !in a
    ensures Split(a + b, d)[0] == a + Split(b, d)[0]
    decreases |a|
  {
    if |a| > 0 {
      var s := a + b;
      assert s[0] == a[0] && s[1..] == a[1..] + b;
      SplitHeadPrefix(a[1..], b, d);
      assert [a[0]] + (a[1..] + Split(b, d)[0]) == a + Split(b, d)[0];
    } else {
      assert a + b == b;
    }
  }

  /** The first piece is the text before the first separator; when there is
      a separator, the other pieces are the split of the text after it. */
  lemma {:induction false} SplitFirst(s: string, d: char)
    ensures var h := Split(s, d)[0];
      && |h| <= |s| && s[..|h|] == h
      && (|h| < |s| ==> s[|h|] == d && Split(s, d)[1..] == Split(s[|h| + 1..], d))
      && (|h| == |s| ==> d !in s)
    decreases |s|
  {
    if |s| > 0 && s[0] != d {
      SplitFirst(s[1..], d);
      var rest := Split(s[1..], d);
      var h := [s[0]] + rest[0];
      assert Split(s, d)[0] == h;
      assert s[..|h|] == [s[0]] + s[1..][..|rest[0]|];
      if |h| < |s| {
        assert s[|h| + 1..] == s[1..][|rest[0]| + 1..];
        assert Split(s, d)[1..] == rest[1..];
      } else {
        assert s == [s[0]] + s[1..];
      }
    }
  }

  /** The first piece of a split, and the rest of the text after it. */
  lemma FirstPieceRest(s: string, d: char) returns (rest: string)
    ensures s == Split(s, d)[0] + rest
    ensures rest == "" || rest[0] == d
    ensures rest != "" ==> Split(s, d)[1..] == Split(rest[1..], d)
  {
    SplitFirst(s, d);
    var h := Split(s, d)[0];
    rest := s[|h|..];
    assert s == s[..|h|] + rest;
    if rest != "" {
      assert rest[1..] == s[|h| + 1..];
    }
  }

  /** A character absent from the input is absent from every piece. */
  lemma {:induction false} SplitKeepsAbsent(s: string, d: char, c: char)
    requires c !in s
    ensures forall i :: 0 <= i < |Split(s, d)| ==> c !in Split(s, d)[i]
    decreases |s|
  {
    if |s| > 0 {
      assert c !in s[1..] by { assert forall j :: 0 <= j < |s| - 1 ==> s[1..][j] == s[j + 1]; }
      SplitKeepsAbsent(s[1..], d, c);
    }
  }

  /** `xs.findIndex(p)`, with "not found" as `|xs|`: the least index whose
      element satisfies `p`. `xs.find(p)` is the element at that index. */
  function FindFirst<T>(xs: seq<T>, p: T -> bool): (k: nat)
    ensures k <= |xs|
    ensures k < |xs| ==> p(xs[k])
    ensures forall j :: 0 <= j < k ==> !p(xs[j])
  {
    if |xs| == 0 then 0
    else if p(xs[0]) then 0
    else 1 + FindFirst(xs[1..], p)
  }

  /** Searching a concatenation finds a match in the first part if there is
      one, and otherwise searches the second part. */
  lemma FindFirstAppend<T>(xs: seq<T>, ys: seq<T>, p: T -> bool)
    ensures FindFirst(xs + ys, p) ==
      if FindFirst(xs, p) < |xs| then FindFirst(xs, p) else |xs| + FindFirst(ys, p)
  {
    var k := FindFirst(xs + ys, p);
    var i := FindFirst(xs, p);
    if i < |xs| {
      assert (xs + ys)[i] == xs[i];
      FindFirstUnique(xs + ys, p, i);
    } else {
      var j := FindFirst(ys, p);
      assert forall m :: 0 <= m < |xs| ==> (xs + ys)[m] == xs[m];
      assert forall m :: |xs| <= m < |xs| + j ==> (xs + ys)[m] == ys[m - |xs|];
      if j < |ys| {
        assert (xs + ys)[|xs| + j] == ys[j];
        FindFirstUnique(xs + ys, p, |xs| + j);
      } else {
        FindFirstUnique(xs + ys, p, |xs| + j);
      }
    }
  }

  /** The three properties of FindFirst determine it. */
  lemma FindFirstUnique<T>(xs: seq<T>, p: T -> bool, k: nat)
    requires k <= |xs|
    requires k < |xs| ==> p(xs[k])
    requires forall j :: 0 <= j < k ==> !p(xs[j])
    ensures FindFirst(xs, p) == k
  {
  }
}
