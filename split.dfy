/**
 * The content splitter of src/utils.ts: `splitTextIntoParts`, which cuts
 * text greedily into parts of bounded JavaScript length, and `chunkArray`,
 * which groups uploaded images into batches.
 */
module Split {
  import opened Types

  /** The default `maxLength` used by `buildPost`. */
  const DefaultMaxLength: int := 300

  /**
   * JavaScript's `char.length` for one code point yielded by `for ... of`:
   * a code point outside the Basic Multilingual Plane is a surrogate pair.
   */
  function CharLen(c: char): (n: nat)
    ensures 1 <= n <= 2
    ensures n == 1 <==> c as int <= 0xFFFF
  {
    if c as int > 0xFFFF then 2 else 1
  }

  /** JavaScript's `s.length`: the number of UTF-16 code units of `s`. */
  function Units(s: string): nat
  {
    if s == [] then 0 else CharLen(s[0]) + Units(s[1..])
  }

  lemma {:induction false} UnitsAppend(a: string, b: string)
    ensures Units(a + b) == Units(a) + Units(b)
  {
    if a != [] {
      assert (a + b)[1..] == a[1..] + b;
      UnitsAppend(a[1..], b);
    } else {
      assert a + b == b;
    }
  }

  /** A prefix never has more code units than the whole string. */
  lemma UnitsPrefix(s: string, k: nat)
    requires k <= |s|
    ensures Units(s[..k]) <= Units(s)
  {
    UnitsAppend(s[..k], s[k..]);
    assert s[..k] + s[k..] == s;
  }

  /** A string of code points from the Basic Multilingual Plane has one unit per character. */
  predicate AllBmp(s: string)
  {
    forall k :: 0 <= k < |s| ==> s[k] as int <= 0xFFFF
  }

  lemma {:induction false} UnitsBmp(s: string)
    requires AllBmp(s)
    ensures Units(s) == |s|
  {
    if s != [] {
      assert AllBmp(s[1..]) by {
        forall k | 0 <= k < |s[1..]| ensures s[1..][k] as int <= 0xFFFF {
          assert s[1..][k] == s[k + 1];
        }
      }
      UnitsBmp(s[1..]);
    }
  }

  /**
   * Part `j` respects the length bound: it fits in `maxLength` units, except
   * that the first part may be empty and a later part may be a single
   * character (both happen only when one character is longer than
   * `maxLength`); every part after the first is non-empty.
   */
  predicate PartFits(parts: seq<string>, maxLength: int, j: nat)
    requires j < |parts|
  {
    if j == 0 then Units(parts[0]) <= maxLength || parts[0] == []
    else parts[j] != [] && (Units(parts[j]) <= maxLength || |parts[j]| == 1)
  }

  /** Part `j` is full: the first character of part `j + 1` would not have fitted into it. */
  predicate FullAt(parts: seq<string>, maxLength: int, j: nat)
    requires j + 1 < |parts|
  {
    parts[j + 1] != [] && Units(parts[j]) + CharLen(parts[j + 1][0]) > maxLength
  }

  /** Every part fits and every part but the last is full. */
  predicate WellCut(parts: seq<string>, maxLength: int)
  {
    && (forall j :: 0 <= j < |parts| ==> PartFits(parts, maxLength, j))
    && (forall j :: 0 <= j < |parts| - 1 ==> FullAt(parts, maxLength, j))
  }

  /**
   * What `splitTextIntoParts(text, maxLength)` returns: parts that spell out
   * `text` in order, are well cut, and end with a non-empty part.
   */
  predicate IsGreedySplit(text: string, maxLength: int, parts: seq<string>)
  {
    && Flatten(parts) == text
    && WellCut(parts, maxLength)
    && (|parts| > 0 ==> parts[|parts| - 1] != [])
  }

  /** Appending a character that fits to the last part keeps the parts well cut. */
  lemma ExtendLast(all: seq<string>, c: char, maxLength: int)
    requires all != [] && WellCut(all, maxLength)
    requires Units(all[|all| - 1]) + CharLen(c) <= maxLength
    ensures WellCut(all[..|all| - 1] + [all[|all| - 1] + [c]], maxLength)
  {
    var n := |all| - 1;
    var all' := all[..n] + [all[n] + [c]];
    UnitsAppend(all[n], [c]);
    assert Units([c]) == CharLen(c) + Units([]);
    forall j | 0 <= j < |all'|
      ensures PartFits(all', maxLength, j)
    {
      assert PartFits(all, maxLength, j);
      if j < n {
        assert all'[j] == all[j];
      }
    }
    forall j | 0 <= j < |all'| - 1
      ensures FullAt(all', maxLength, j)
    {
      assert FullAt(all, maxLength, j);
      assert all'[j] == all[j];
      if j + 1 < n {
        assert all'[j + 1] == all[j + 1];
      } else {
        assert PartFits(all, maxLength, n);
        assert all'[j + 1][0] == all[n][0];
      }
    }
  }

  /** Starting a new part with a character that did not fit keeps the parts well cut. */
  lemma PushPart(all: seq<string>, c: char, maxLength: int)
    requires all != [] && WellCut(all, maxLength)
    requires Units(all[|all| - 1]) + CharLen(c) > maxLength
    ensures WellCut(all + [[c]], maxLength)
  {
    var all' := all + [[c]];
    forall j | 0 <= j < |all'|
      ensures PartFits(all', maxLength, j)
    {
      if j < |all| {
        assert PartFits(all, maxLength, j);
        assert all'[j] == all[j];
      }
    }
    forall j | 0 <= j < |all'| - 1
      ensures FullAt(all', maxLength, j)
    {
      assert all'[j] == all[j];
      if j + 1 < |all| {
        assert FullAt(all, maxLength, j);
        assert all'[j + 1] == all[j + 1];
      }
    }
  }

  /**
   * The loop of `splitTextIntoParts`: a character goes into the current part
   * unless the part's length plus the character's length would exceed
   * `maxLength`, in which case the current part is pushed first; a non-empty
   * current part is pushed at the end.
   */
  method SplitTextIntoParts(text: string, maxLength: int) returns (parts: seq<string>)
    ensures IsGreedySplit(text, maxLength, parts)
  {
    parts := [];
    var currentPart: string := [];
    var i := 0;
    while i < |text|
      invariant 0 <= i <= |text|
      invariant Flatten(parts) + currentPart == text[..i]
      invariant i > 0 ==> currentPart != []
      invariant i == 0 ==> parts == [] && currentPart == []
      invariant WellCut(parts + [currentPart], maxLength)
    {
      var c := text[i];
      ghost var all := parts + [currentPart];
      if Units(currentPart) + CharLen(c) > maxLength {
        PushPart(all, c, maxLength);
        FlattenSnoc(parts, currentPart);
        parts := parts + [currentPart];
        currentPart := [c];
        assert parts + [currentPart] == all + [[c]];
      } else {
        ExtendLast(all, c, maxLength);
        assert all[..|parts|] == parts && all[|parts|] == currentPart;
        currentPart := currentPart + [c];
      }
      assert text[..i + 1] == text[..i] + [c];
      i := i + 1;
    }
    assert text[..i] == text;
    if |currentPart| > 0 {
      FlattenSnoc(parts, currentPart);
      parts := parts + [currentPart];
    }
  }

  /** Splitting `parts` after index `k` splits the concatenation accordingly. */
  lemma FlattenSplitAt<T>(parts: seq<seq<T>>, k: nat)
    requires k <= |parts|
    ensures Flatten(parts) == Flatten(parts[..k]) + Flatten(parts[k..])
  {
    assert parts == parts[..k] + parts[k..];
    FlattenAppend(parts[..k], parts[k..]);
  }

  /** Parts that concatenate to nothing and end with a non-empty part: there are none. */
  lemma {:induction false} FlattenEmpty(parts: seq<string>)
    requires Flatten(parts) == []
    requires |parts| > 0 ==> parts[|parts| - 1] != []
    ensures parts == []
  {
    if |parts| > 1 {
      FlattenEmpty(parts[1..]);
    }
  }

  /** The concatenation of the parts after part `k` starts where part `k + 1` starts. */
  lemma NextPartStart(parts: seq<string>, maxLength: int, k: nat)
    requires WellCut(parts, maxLength) && k < |parts|
    ensures Flatten(parts[k + 1..]) != [] ==> Units(parts[k]) + CharLen(Flatten(parts[k + 1..])[0]) > maxLength
  {
    if k + 1 < |parts| {
      assert FullAt(parts, maxLength, k);
      assert Flatten(parts[k + 1..]) == parts[k + 1] + Flatten(parts[k + 2..]) by {
        assert parts[k + 1..][1..] == parts[k + 2..];
      }
    } else {
      assert parts[k + 1..] == [];
    }
  }

  /**
   * Two parts `a` and `b` that start at the same place: `b` cannot run past
   * the end of `a` when the character after `a` did not fit and `b`, had it
   * been longer than `a`, would still fit.
   */
  lemma PartNotLonger(a: string, arest: string, b: string, brest: string, maxLength: int)
    requires a + arest == b + brest
    requires arest != [] ==> Units(a) + CharLen(arest[0]) > maxLength
    requires |b| > |a| ==> Units(b) <= maxLength
    ensures |b| <= |a|
  {
    if arest != [] && |b| > |a| {
      var n := |a|;
      var x := arest[0];
      PrefixOfBoth(a, arest, b, brest);
      UnitsAppend(a, [x]);
      UnitsPrefix(b, n + 1);
    }
  }

  /** If `a + arest == b + brest` and `b` is longer than `a`, then `b` extends `a` by `arest[0]`. */
  lemma PrefixOfBoth(a: string, arest: string, b: string, brest: string)
    requires a + arest == b + brest
    requires arest != [] && |b| > |a|
    ensures b[..|a| + 1] == a + [arest[0]]
  {
    var s := a + arest;
    var n := |a|;
    forall k | 0 <= k < n + 1
      ensures b[k] == (a + [arest[0]])[k]
    {
      assert s[k] == b[k];
    }
  }

  /**
   * The properties of IsGreedySplit determine the parts: two sequences that
   * both satisfy them for the same text and bound are equal.
   */
  lemma SplitUnique(text: string, maxLength: int, p: seq<string>, q: seq<string>)
    requires IsGreedySplit(text, maxLength, p)
    requires IsGreedySplit(text, maxLength, q)
    ensures p == q
  {
    SplitUniqueFrom(text, maxLength, p, q, 0);
  }

  lemma {:induction false} SplitUniqueFrom(text: string, maxLength: int, p: seq<string>, q: seq<string>, k: nat)
    requires IsGreedySplit(text, maxLength, p)
    requires IsGreedySplit(text, maxLength, q)
    requires k <= |p| && k <= |q| && p[..k] == q[..k]
    ensures p == q
    decreases |p| - k
  {
    SameRest(text, maxLength, p, q, k);
    if k < |p| && k < |q| {
      assert PartFits(p, maxLength, k) && PartFits(q, maxLength, k);
      SamePart(maxLength, p, q, k);
      assert p[..k + 1] == p[..k] + [p[k]];
      assert q[..k + 1] == q[..k] + [q[k]];
      SplitUniqueFrom(text, maxLength, p, q, k + 1);
    } else if k < |p| {
      FlattenEmpty(p[k..]);
    } else if k < |q| {
      FlattenEmpty(q[k..]);
    } else {
      assert p == p[..k] && q == q[..k];
    }
  }

  /** Two splits of one text that agree on their first `k` parts spell out the same rest. */
  lemma SameRest(text: string, maxLength: int, p: seq<string>, q: seq<string>, k: nat)
    requires IsGreedySplit(text, maxLength, p)
    requires IsGreedySplit(text, maxLength, q)
    requires k <= |p| && k <= |q| && p[..k] == q[..k]
    ensures Flatten(p[k..]) == Flatten(q[k..])
    ensures k < |p| ==> p[k..][|p| - k - 1] != []
    ensures k < |q| ==> q[k..][|q| - k - 1] != []
  {
    FlattenSplitAt(p, k);
    FlattenSplitAt(q, k);
    var pre := Flatten(p[..k]);
    assert Flatten(p[k..]) == text[|pre|..];
    assert Flatten(q[k..]) == text[|pre|..];
  }

  /** Two well-cut splits whose parts from index `k` on spell out the same rest agree on part `k`. */
  lemma SamePart(maxLength: int, p: seq<string>, q: seq<string>, k: nat)
    requires WellCut(p, maxLength) && WellCut(q, maxLength)
    requires k < |p| && k < |q|
    requires k > 0 ==> p[k] != [] && q[k] != []
    requires Flatten(p[k..]) == Flatten(q[k..])
    ensures p[k] == q[k]
  {
    var pr, qr := Flatten(p[k + 1..]), Flatten(q[k + 1..]);
    assert Flatten(p[k..]) == p[k] + pr by { assert p[k..][1..] == p[k + 1..]; }
    assert Flatten(q[k..]) == q[k] + qr by { assert q[k..][1..] == q[k + 1..]; }
    NextPartStart(p, maxLength, k);
    NextPartStart(q, maxLength, k);
    assert PartFits(p, maxLength, k) && PartFits(q, maxLength, k);
    PartNotLonger(p[k], pr, q[k], qr, maxLength);
    PartNotLonger(q[k], qr, p[k], pr, maxLength);
    assert (p[k] + pr)[..|p[k]|] == p[k];
    assert (q[k] + qr)[..|q[k]|] == q[k];
  }

  /** The empty text yields no parts at all, not one empty part. */
  lemma SplitEmpty(maxLength: int, parts: seq<string>)
    requires IsGreedySplit([], maxLength, parts)
    ensures parts == []
  {
    SplitUnique([], maxLength, parts, []);
  }

  /** A non-empty text that fits in `maxLength` comes back as the single part `[text]`. */
  lemma SplitShort(text: string, maxLength: int, parts: seq<string>)
    requires IsGreedySplit(text, maxLength, parts)
    requires text != [] && Units(text) <= maxLength
    ensures parts == [text]
  {
    assert Flatten([text]) == text + Flatten([text][1..]);
    assert PartFits([text], maxLength, 0);
    SplitUnique(text, maxLength, parts, [text]);
  }

  /** Every character of every part is a character of the text. */
  lemma SplitCharsFromText(text: string, maxLength: int, parts: seq<string>, j: nat, k: nat)
    requires IsGreedySplit(text, maxLength, parts)
    requires j < |parts| && k < |parts[j]|
    ensures parts[j][k] in text
  {
    FlattenContains(parts, j, k);
  }

  /**
   * When no single character is longer than `maxLength` (always the case for
   * `maxLength >= 2`), every part fits in `maxLength` units.
   */
  lemma SplitBounded(text: string, maxLength: int, parts: seq<string>)
    requires IsGreedySplit(text, maxLength, parts)
    requires forall c :: c in text ==> CharLen(c) <= maxLength
    ensures forall j :: 0 <= j < |parts| ==> Units(parts[j]) <= maxLength
  {
    forall j | 0 <= j < |parts|
      ensures Units(parts[j]) <= maxLength
    {
      assert PartFits(parts, maxLength, j);
      if parts[j] == [] {
        SplitCharsFromText(text, maxLength, parts, |parts| - 1, 0);
      } else if |parts[j]| == 1 {
        SplitCharsFromText(text, maxLength, parts, j, 0);
        assert Units(parts[j]) == CharLen(parts[j][0]) + Units(parts[j][1..]);
      }
    }
  }

  /** With `maxLength >= 2`, as in `buildPost`, every part is non-empty and fits. */
  lemma SplitDefaultParts(text: string, maxLength: int, parts: seq<string>)
    requires IsGreedySplit(text, maxLength, parts)
    requires maxLength >= 2
    ensures forall j :: 0 <= j < |parts| ==> parts[j] != [] && Units(parts[j]) <= maxLength
  {
    SplitBounded(text, maxLength, parts);
    forall j | 0 <= j < |parts|
      ensures parts[j] != []
    {
      assert PartFits(parts, maxLength, j);
      if j == 0 && |parts| > 1 {
        assert FullAt(parts, maxLength, 0);
      }
    }
  }

  lemma AllBmpSlice(s: string, a: nat, b: nat)
    requires AllBmp(s) && a <= b <= |s|
    ensures AllBmp(s[a..b])
  {
    forall k | 0 <= k < b - a
      ensures s[a..b][k] as int <= 0xFFFF
    {
      assert s[a..b][k] == s[a + k];
    }
  }

  /**
   * For text of Basic-Multilingual-Plane characters and `maxLength >= 1`,
   * every part but the last has exactly `maxLength` characters, and the last
   * has between 1 and `maxLength`.
   */
  lemma SplitBmpSizes(text: string, maxLength: int, parts: seq<string>)
    requires IsGreedySplit(text, maxLength, parts)
    requires AllBmp(text) && maxLength >= 1
    ensures forall j :: 0 <= j < |parts| - 1 ==> |parts[j]| == maxLength
    ensures |parts| > 0 ==> 1 <= |parts[|parts| - 1]| <= maxLength
  {
    forall c | c in text
      ensures CharLen(c) <= maxLength
    {
      var k :| 0 <= k < |text| && text[k] == c;
    }
    SplitBounded(text, maxLength, parts);
    forall j | 0 <= j < |parts|
      ensures Units(parts[j]) == |parts[j]|
    {
      forall k | 0 <= k < |parts[j]|
        ensures parts[j][k] as int <= 0xFFFF
      {
        SplitCharsFromText(text, maxLength, parts, j, k);
        var m :| 0 <= m < |text| && text[m] == parts[j][k];
      }
      UnitsBmp(parts[j]);
    }
    forall j | 0 <= j < |parts| - 1
      ensures |parts[j]| == maxLength
    {
      assert FullAt(parts, maxLength, j);
      SplitCharsFromText(text, maxLength, parts, j + 1, 0);
      var m :| 0 <= m < |text| && text[m] == parts[j + 1][0];
    }
  }

  /**
   * A text of Basic-Multilingual-Plane characters whose length is in
   * `(maxLength, 2 * maxLength]` comes back as exactly two parts, split at
   * index `maxLength`; with the default 300, the 368-character sample text
   * of the test suite splits at 300.
   */
  lemma SplitTwoParts(text: string, maxLength: int, parts: seq<string>)
    requires IsGreedySplit(text, maxLength, parts)
    requires AllBmp(text) && maxLength >= 1
    requires maxLength < |text| <= 2 * maxLength
    ensures parts == [text[..maxLength], text[maxLength..]]
  {
    var a, b := text[..maxLength], text[maxLength..];
    AllBmpSlice(text, 0, maxLength);
    AllBmpSlice(text, maxLength, |text|);
    assert text[0..maxLength] == a && text[maxLength..|text|] == b;
    UnitsBmp(a);
    UnitsBmp(b);
    var two := [a, b];
    assert Flatten(two) == text by {
      assert Flatten(two) == a + Flatten(two[1..]);
      assert Flatten(two[1..]) == b + Flatten(two[2..]);
      assert a + b == text;
    }
    assert PartFits(two, maxLength, 0) && PartFits(two, maxLength, 1);
    assert b[0] == text[maxLength];
    assert FullAt(two, maxLength, 0);
    SplitUnique(text, maxLength, parts, two);
  }

  /**
   * `chunkArray(array, chunkSize)`: slices of `chunkSize` elements taken at
   * `0, chunkSize, 2 * chunkSize, ...`, the last one clipped at the end. With
   * `chunkSize <= 0` and a non-empty array the loop never ends, so callers
   * must not do that; `buildPost` uses 4.
   */
  method ChunkArray<T>(elems: seq<T>, chunkSize: int) returns (result: seq<seq<T>>)
    requires chunkSize > 0 || elems == []
    ensures Flatten(result) == elems
    ensures forall k :: 0 <= k < |result| ==> 0 < |result[k]| <= chunkSize
    ensures forall k :: 0 <= k < |result| - 1 ==> |result[k]| == chunkSize
    ensures elems == [] ==> result == []
    ensures elems != [] ==> (|result| - 1) * chunkSize < |elems| <= |result| * chunkSize
  {
    result := [];
    var i := 0;
    while i < |elems|
      invariant 0 <= i
      invariant i <= |elems| ==> Flatten(result) == elems[..i]
      invariant i > |elems| ==> Flatten(result) == elems
      invariant forall k :: 0 <= k < |result| ==> 0 < |result[k]| <= chunkSize
      invariant forall k :: 0 <= k < |result| - 1 ==> |result[k]| == chunkSize
      invariant i <= |elems| ==> forall k :: 0 <= k < |result| ==> |result[k]| == chunkSize
      decreases |elems| - i
    {
      var chunk := elems[i..Min(i + chunkSize, |elems|)];
      ChunkStep(elems, result, i, chunkSize, chunk);
      result := result + [chunk];
      i := i + chunkSize;
    }
    if result != [] {
      ChunkCount(result, chunkSize);
    }
    if i == 0 {
      assert elems[..0] == [];
    }
  }

  /** One iteration of `chunkArray`: pushing the next slice extends the flattened prefix. */
  lemma ChunkStep<T>(elems: seq<T>, result: seq<seq<T>>, i: nat, chunkSize: int, chunk: seq<T>)
    requires chunkSize > 0 && i < |elems|
    requires Flatten(result) == elems[..i]
    requires chunk == elems[i..Min(i + chunkSize, |elems|)]
    ensures i + chunkSize <= |elems| ==> Flatten(result + [chunk]) == elems[..i + chunkSize]
    ensures i + chunkSize > |elems| ==> Flatten(result + [chunk]) == elems
    ensures 0 < |chunk| <= chunkSize
    ensures i + chunkSize <= |elems| ==> |chunk| == chunkSize
  {
    FlattenSnoc(result, chunk);
    assert elems[..Min(i + chunkSize, |elems|)] == elems[..i] + chunk;
    if i + chunkSize > |elems| {
      assert elems[..|elems|] == elems;
    }
  }

  /** Non-empty groups of at most `c`, all full but the last: their number is the ceiling of total / c. */
  lemma {:induction false} ChunkCount<T>(result: seq<seq<T>>, c: int)
    requires result != []
    requires forall k :: 0 <= k < |result| ==> 0 < |result[k]| <= c
    requires forall k :: 0 <= k < |result| - 1 ==> |result[k]| == c
    ensures (|result| - 1) * c < |Flatten(result)| <= |result| * c
  {
    var rest := result[1..];
    assert Flatten(result) == result[0] + Flatten(rest);
    if rest != [] {
      ChunkCount(rest, c);
      assert |result[0]| == c;
      assert (|result| - 1) * c == (|rest| - 1) * c + c;
      assert |result| * c == |rest| * c + c;
    }
  }

  /** Five images in groups of 4 make two groups, of 4 and 1. */
  lemma ChunkFiveByFour<T>(elems: seq<T>, result: seq<seq<T>>)
    requires |elems| == 5
    requires Flatten(result) == elems
    requires forall k :: 0 <= k < |result| ==> 0 < |result[k]| <= 4
    requires forall k :: 0 <= k < |result| - 1 ==> |result[k]| == 4
    requires (|result| - 1) * 4 < |elems| <= |result| * 4
    ensures |result| == 2 && result[0] == elems[..4] && result[1] == elems[4..]
  {
    assert |result| == 2;
    assert Flatten(result) == result[0] + Flatten(result[1..]);
    assert Flatten(result[1..]) == result[1] + Flatten(result[2..]);
  }
}
