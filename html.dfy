/**
 * The text clean-up of src/utils.ts: `extractImageUrls` (the regular
 * expression `<img[^>]+src="([^">]+)"` run with the global flag),
 * `stripTags` (the global replacement of `<([^>]+)>` by nothing, then
 * `trim`) and `buildDescription` (trim, drop the CDATA markers, strip tags,
 * turn every run of newlines into one space).
 */
module Html {
  import opened Wrappers
  import opened Types

  /** `w` occurs in `s` at position `p`. */
  predicate HasAt(s: string, p: nat, w: string)
  {
    p + |w| <= |s| && s[p..p + |w|] == w
  }

  /** The first index at or after `from` whose character is in `stops`, or `|s|` when there is none. */
  function FindFirst(s: string, from: nat, stops: set<char>): (r: nat)
    requires from <= |s|
    ensures from <= r <= |s|
    ensures forall k :: from <= k < r ==> s[k] !in stops
    ensures r < |s| ==> s[r] in stops
    decreases |s| - from
  {
    if from == |s| || s[from] in stops then from else FindFirst(s, from + 1, stops)
  }

  // ---------------------------------------------------------------------
  // extractImageUrls
  // ---------------------------------------------------------------------

  const ImgTag: string := "<img"
  const SrcAttr: string := "src=\""

  /**
   * The tail `src="([^">]+)"` of the expression, tried at `j`: `src="`, a
   * non-empty run of characters other than `"` and `>`, then `"`. The run is
   * greedy and cannot be shortened usefully (a shorter run is followed by a
   * run character, not `"`), so the only candidate end is the first `"` or
   * `>`. Gives the index of the closing quote.
   */
  function SrcValueEnd(html: string, j: nat): (r: Option<nat>)
    ensures r.Some? ==> j + 5 < r.value < |html| && html[r.value] == '"'
    ensures r.Some? ==> HasAt(html, j, SrcAttr)
    ensures r.Some? ==> forall k :: j + 5 <= k < r.value ==> html[k] != '"' && html[k] != '>'
  {
    if !HasAt(html, j, SrcAttr) then None
    else
      var e := FindFirst(html, j + 5, {'"', '>'});
      if e > j + 5 && e < |html| && html[e] == '"' then Some(e) else None
  }

  /**
   * The backtracking of the greedy `[^>]+`: it first takes every character
   * up to the first `>`, then gives them back one at a time, so the `src`
   * group that wins is the LAST position in `[lo, hi)` where it matches.
   */
  function LastSrc(html: string, lo: nat, hi: nat): (r: Option<nat>)
    ensures r.Some? ==> lo <= r.value < hi && SrcValueEnd(html, r.value).Some?
    ensures r.Some? ==> forall j :: r.value < j < hi ==> SrcValueEnd(html, j).None?
    ensures r.None? ==> forall j :: lo <= j < hi ==> SrcValueEnd(html, j).None?
    decreases hi
  {
    if hi <= lo then None
    else if SrcValueEnd(html, hi - 1).Some? then Some(hi - 1)
    else LastSrc(html, lo, hi - 1)
  }

  /**
   * One match of the expression: the captured URL, the index where its
   * `src="` starts and the index just past the match.
   */
  datatype Match = Match(url: string, at: nat, end: nat)

  /**
   * The expression tried at position `p`: `<img`, then `[^>]+` over
   * `html[p + 4..j]` (at least one character and no `>`, so `p + 5 <= j`
   * and `j` is at most the first `>` after `p + 4`, where `src="` cannot
   * start), then the `src` group at `j`.
   */
  function MatchAt(html: string, p: nat): (r: Option<Match>)
    ensures r.Some? ==> p < r.value.end <= |html|
    ensures r.Some? ==> r.value.url != [] && '"' !in r.value.url && '>' !in r.value.url
    ensures r.Some? ==> HasAt(html, p, ImgTag)
    ensures r.Some? ==> p < r.value.at && HasAt(html, r.value.at, SrcAttr + r.value.url + "\"")
  {
    if !HasAt(html, p, ImgTag) then None
    else
      var limit := FindFirst(html, p + 4, {'>'});
      match LastSrc(html, p + 5, limit)
      case None => None
      case Some(j) =>
        var e := SrcValueEnd(html, j).value;
        SrcGroup(html, j, e);
        Some(Match(html[j + 5..e], j, e + 1))
  }

  /** A `src` group found at `j` and closed at `e` spells `src="`, the captured URL and `"`. */
  lemma SrcGroup(html: string, j: nat, e: nat)
    requires SrcValueEnd(html, j) == Some(e)
    ensures html[j + 5..e] != [] && '"' !in html[j + 5..e] && '>' !in html[j + 5..e]
    ensures HasAt(html, j, SrcAttr + html[j + 5..e] + "\"")
  {
    var url := html[j + 5..e];
    assert html[j..e + 1] == html[j..j + 5] + url + [html[e]];
  }

  /**
   * The URLs captured by repeated `regex.exec` calls from `lastIndex = pos`:
   * the leftmost match at or after `pos`, then the matches after its end.
   */
  function UrlsFrom(html: string, pos: nat): (r: seq<string>)
    ensures forall k :: 0 <= k < |r| ==> r[k] != [] && '"' !in r[k] && '>' !in r[k]
    decreases |html| - pos
  {
    if pos >= |html| then []
    else match MatchAt(html, pos)
      case Some(m) => [m.url] + UrlsFrom(html, m.end)
      case None => UrlsFrom(html, pos + 1)
  }

  /** All URLs `extractImageUrls(html)` returns. */
  function ImageUrls(html: string): (r: seq<string>)
    ensures forall k :: 0 <= k < |r| ==> r[k] != [] && '"' !in r[k] && '>' !in r[k]
  {
    UrlsFrom(html, 0)
  }

  /**
   * The `while ((match = regex.exec(html)) !== null)` loop: every match
   * pushes its captured group and resumes the search at the end of the match.
   */
  method ExtractImageUrls(html: string) returns (imageUrls: seq<string>)
    ensures imageUrls == ImageUrls(html)
    ensures forall k :: 0 <= k < |imageUrls| ==> imageUrls[k] != [] && '"' !in imageUrls[k] && '>' !in imageUrls[k]
  {
    imageUrls := [];
    var lastIndex := 0;
    while lastIndex < |html|
      invariant lastIndex <= |html|
      invariant imageUrls + UrlsFrom(html, lastIndex) == ImageUrls(html)
      decreases |html| - lastIndex
    {
      UrlsFromUnfold(html, lastIndex);
      match MatchAt(html, lastIndex)
      case Some(m) =>
        assert imageUrls + UrlsFrom(html, lastIndex) == (imageUrls + [m.url]) + UrlsFrom(html, m.end);
        imageUrls := imageUrls + [m.url];
        lastIndex := m.end;
      case None =>
        lastIndex := lastIndex + 1;
    }
    assert UrlsFrom(html, lastIndex) == [];
  }

  /** One step of the `exec` loop: a match at `pos` gives its URL and the search resumes at its end; otherwise at `pos + 1`. */
  lemma UrlsFromUnfold(html: string, pos: nat)
    requires pos < |html|
    ensures MatchAt(html, pos).Some? ==>
      UrlsFrom(html, pos) == [MatchAt(html, pos).value.url] + UrlsFrom(html, MatchAt(html, pos).value.end)
    ensures MatchAt(html, pos).None? ==> UrlsFrom(html, pos) == UrlsFrom(html, pos + 1)
  {
  }

  /** `src="`, then `url`, then `"`, spelled out at position `q`. */
  predicate SrcAt(html: string, q: nat, url: string)
  {
    HasAt(html, q, SrcAttr + url + "\"")
  }

  /**
   * Every URL found from `pos` on is spelled out in the HTML: an `<img` at
   * or after `pos`, and after it `src="`, the URL and `"`.
   */
  lemma {:induction false} UrlsFromFound(html: string, pos: nat, k: nat) returns (p: nat, q: nat)
    requires k < |UrlsFrom(html, pos)|
    ensures pos <= p < q && HasAt(html, p, ImgTag) && SrcAt(html, q, UrlsFrom(html, pos)[k])
    decreases |html| - pos
  {
    var urls := UrlsFrom(html, pos);
    var found := MatchAt(html, pos);
    if found.Some? {
      var rest := UrlsFrom(html, found.value.end);
      assert urls == [found.value.url] + rest by {
        UrlsFromUnfold(html, pos);
      }
      if k == 0 {
        p, q := pos, found.value.at;
        assert SrcAt(html, q, urls[k]) by {
          assert urls[k] == found.value.url;
        }
      } else {
        p, q := UrlsFromFound(html, found.value.end, k - 1);
        assert SrcAt(html, q, urls[k]) by {
          ConsIndex(urls, found.value.url, rest, k);
        }
      }
    } else {
      assert urls == UrlsFrom(html, pos + 1) by {
        UrlsFromUnfold(html, pos);
      }
      p, q := UrlsFromFound(html, pos + 1, k);
    }
  }

  /** Element `k > 0` of `[x] + rest` is element `k - 1` of `rest`. */
  lemma ConsIndex<T>(s: seq<T>, x: T, rest: seq<T>, k: nat)
    requires s == [x] + rest && 0 < k < |s|
    ensures s[k] == rest[k - 1]
  {
  }

  /** Every URL `extractImageUrls` returns comes from an `<img` tag's `src` attribute in the input. */
  lemma ImageUrlsFound(html: string, k: nat)
    requires k < |ImageUrls(html)|
    ensures exists p, q :: p < q && HasAt(html, p, ImgTag) && SrcAt(html, q, ImageUrls(html)[k])
  {
    var p, q := UrlsFromFound(html, 0, k);
  }

  /** HTML with no `<img` anywhere yields no URL. */
  lemma NoImgNoUrls(html: string)
    requires forall p :: !HasAt(html, p, ImgTag)
    ensures ImageUrls(html) == []
  {
    NoImgNoUrlsFrom(html, 0);
  }

  lemma {:induction false} NoImgNoUrlsFrom(html: string, pos: nat)
    requires forall p :: !HasAt(html, p, ImgTag)
    ensures UrlsFrom(html, pos) == []
    decreases |html| - pos
  {
    if pos < |html| {
      assert MatchAt(html, pos).None?;
      NoImgNoUrlsFrom(html, pos + 1);
    }
  }

  // The search only looks forward, so on a suffix `big[d..]` of the input
  // it finds what it finds on `big`, every position moved by `d`.

  lemma HasAtShift(big: string, d: nat, i: nat, w: string)
    requires d <= |big|
    ensures HasAt(big, d + i, w) == HasAt(big[d..], i, w)
  {
    if i + |w| <= |big| - d {
      assert big[d + i..d + i + |w|] == big[d..][i..i + |w|];
    }
  }

  lemma {:induction false} FindFirstShift(big: string, d: nat, i: nat, at: nat, stops: set<char>)
    requires d + i <= |big| && at == d + i
    ensures FindFirst(big, at, stops) == d + FindFirst(big[d..], i, stops)
    decreases |big| - at
  {
    if at < |big| {
      assert big[at] == big[d..][i];
      if big[at] !in stops {
        FindFirstShift(big, d, i + 1, at + 1, stops);
      }
    }
  }

  lemma SrcValueEndShift(big: string, d: nat, j: nat, at: nat)
    requires d <= |big| && at == d + j
    ensures SrcValueEnd(big, at).Some? == SrcValueEnd(big[d..], j).Some?
    ensures SrcValueEnd(big[d..], j).Some? ==> SrcValueEnd(big, at).value == d + SrcValueEnd(big[d..], j).value
  {
    HasAtShift(big, d, j, SrcAttr);
    if HasAt(big[d..], j, SrcAttr) {
      var at5 := at + 5;
      FindFirstShift(big, d, j + 5, at5, {'"', '>'});
      var e := FindFirst(big[d..], j + 5, {'"', '>'});
      var bigE := d + e;
      if e < |big| - d {
        assert big[bigE] == big[d..][e];
      }
    }
  }

  lemma {:induction false} LastSrcShift(big: string, d: nat, lo: nat, hi: nat, bigLo: nat, bigHi: nat)
    requires d <= |big| && bigLo == d + lo && bigHi == d + hi
    ensures LastSrc(big, bigLo, bigHi).Some? == LastSrc(big[d..], lo, hi).Some?
    ensures LastSrc(big[d..], lo, hi).Some? ==> LastSrc(big, bigLo, bigHi).value == d + LastSrc(big[d..], lo, hi).value
    decreases hi
  {
    if lo < hi {
      var top, bigTop := hi - 1, bigHi - 1;
      SrcValueEndShift(big, d, top, bigTop);
      LastSrcStep(big, bigLo, bigHi, bigTop);
      LastSrcStep(big[d..], lo, hi, top);
      if SrcValueEnd(big[d..], top).None? {
        LastSrcShift(big, d, lo, top, bigLo, bigTop);
      }
    }
  }

  lemma LastSrcStep(html: string, lo: nat, hi: nat, top: nat)
    requires lo < hi && top == hi - 1
    ensures LastSrc(html, lo, hi) == if SrcValueEnd(html, top).Some? then Some(top) else LastSrc(html, lo, top)
  {
  }

  lemma MatchAtShift(big: string, d: nat, p: nat, at: nat)
    requires d <= |big| && at == d + p
    ensures MatchAt(big, at).Some? == MatchAt(big[d..], p).Some?
    ensures MatchAt(big[d..], p).Some? ==> MatchAt(big, at).value.url == MatchAt(big[d..], p).value.url
    ensures MatchAt(big[d..], p).Some? ==> MatchAt(big, at).value.end == d + MatchAt(big[d..], p).value.end
  {
    if MatchAt(big[d..], p).Some? {
      MatchAtShiftFound(big, d, p, at);
    } else {
      MatchAtShiftMissing(big, d, p, at);
    }
  }

  lemma MatchAtShiftMissing(big: string, d: nat, p: nat, at: nat)
    requires d <= |big| && at == d + p
    requires MatchAt(big[d..], p).None?
    ensures MatchAt(big, at).None?
  {
    var small := big[d..];
    HasAtShift(big, d, p, ImgTag);
    if HasAt(small, p, ImgTag) {
      var limit := FindFirst(small, p + 4, {'>'});
      var bigLimit, at4, at5 := d + limit, at + 4, at + 5;
      FindFirstShift(big, d, p + 4, at4, {'>'});
      LastSrcShift(big, d, p + 5, limit, at5, bigLimit);
    }
  }

  lemma MatchAtShiftFound(big: string, d: nat, p: nat, at: nat)
    requires d <= |big| && at == d + p
    requires MatchAt(big[d..], p).Some?
    ensures MatchAt(big, at).Some?
    ensures MatchAt(big, at).value.url == MatchAt(big[d..], p).value.url
    ensures MatchAt(big, at).value.end == d + MatchAt(big[d..], p).value.end
  {
    var small := big[d..];
    var limit, j, e := MatchAtParts(small, p);
    var bigLimit, bigJ, bigE := d + limit, d + j, d + e;
    var bigJ5, j5 := bigJ + 5, j + 5;
    PartsShift(big, d, p, at, limit, j, e, bigLimit, bigJ, bigE);
    assert big[bigJ5..bigE] == small[j5..e] by {
      SliceShift(big, d, j5, e, bigJ5, bigE);
    }
    MatchAtFound(big, at, bigLimit, bigJ, bigE);
  }

  /** The pieces of a match in a suffix are the same pieces, shifted, in the whole text. */
  lemma PartsShift(big: string, d: nat, p: nat, at: nat, limit: nat, j: nat, e: nat, bigLimit: nat, bigJ: nat, bigE: nat)
    requires d <= |big| && at == d + p && bigLimit == d + limit && bigJ == d + j && bigE == d + e
    requires HasAt(big[d..], p, ImgTag) && FindFirst(big[d..], p + 4, {'>'}) == limit
    requires LastSrc(big[d..], p + 5, limit).Some? && LastSrc(big[d..], p + 5, limit).value == j
    requires SrcValueEnd(big[d..], j).Some? && SrcValueEnd(big[d..], j).value == e
    ensures HasAt(big, at, ImgTag) && FindFirst(big, at + 4, {'>'}) == bigLimit
    ensures LastSrc(big, at + 5, bigLimit).Some? && LastSrc(big, at + 5, bigLimit).value == bigJ
    ensures SrcValueEnd(big, bigJ).Some? && SrcValueEnd(big, bigJ).value == bigE
  {
    var at4, at5, p4, p5 := at + 4, at + 5, p + 4, p + 5;
    assert HasAt(big, at, ImgTag) by {
      HasAtShift(big, d, p, ImgTag);
    }
    assert FindFirst(big, at4, {'>'}) == bigLimit by {
      FindFirstShift(big, d, p4, at4, {'>'});
    }
    assert LastSrc(big, at5, bigLimit).Some? && LastSrc(big, at5, bigLimit).value == bigJ by {
      LastSrcShift(big, d, p5, limit, at5, bigLimit);
    }
    assert SrcValueEnd(big, bigJ).Some? && SrcValueEnd(big, bigJ).value == bigE by {
      SrcValueEndShift(big, d, j, bigJ);
    }
  }

  /** The pieces of a match found at `p`: the `>` that bounds it, its `src` group and that group's closing quote. */
  lemma MatchAtParts(html: string, p: nat) returns (limit: nat, j: nat, e: nat)
    requires MatchAt(html, p).Some?
    ensures HasAt(html, p, ImgTag) && FindFirst(html, p + 4, {'>'}) == limit
    ensures LastSrc(html, p + 5, limit).Some? && LastSrc(html, p + 5, limit).value == j
    ensures SrcValueEnd(html, j).Some? && SrcValueEnd(html, j).value == e
    ensures j + 5 <= e <= |html| && MatchAt(html, p).value == Match(html[j + 5..e], j, e + 1)
  {
    limit := FindFirst(html, p + 4, {'>'});
    j := LastSrc(html, p + 5, limit).value;
    e := SrcValueEnd(html, j).value;
  }

  /** The match at `p` when its `src` group is the one at `j`, closed at `e`. */
  lemma MatchAtFound(html: string, p: nat, limit: nat, j: nat, e: nat)
    requires HasAt(html, p, ImgTag) && FindFirst(html, p + 4, {'>'}) == limit
    requires LastSrc(html, p + 5, limit).Some? && LastSrc(html, p + 5, limit).value == j
    requires SrcValueEnd(html, j).Some? && SrcValueEnd(html, j).value == e
    ensures MatchAt(html, p) == Some(Match(html[j + 5..e], j, e + 1))
  {
  }

  lemma SliceShift(big: string, d: nat, a: nat, b: nat, bigA: nat, bigB: nat)
    requires d <= |big| && a <= b <= |big| - d && bigA == d + a && bigB == d + b
    ensures big[bigA..bigB] == big[d..][a..b]
  {
  }

  lemma {:induction false} UrlsFromShift(big: string, d: nat, i: nat, at: nat)
    requires d <= |big| && at == d + i
    ensures UrlsFrom(big, at) == UrlsFrom(big[d..], i)
    decreases |big| - at
  {
    var small := big[d..];
    if at >= |big| {
      UrlsFromEnd(big, at);
      UrlsFromEnd(small, i);
      return;
    }
    var found := MatchAt(small, i);
    if found.Some? {
      var url, next := found.value.url, found.value.end;
      var bigNext := d + next;
      assert UrlsFrom(big, at) == [url] + UrlsFrom(big, bigNext) by {
        MatchAtShift(big, d, i, at);
        UrlsFromStep(big, at, url, bigNext);
      }
      assert UrlsFrom(small, i) == [url] + UrlsFrom(small, next) by {
        UrlsFromStep(small, i, url, next);
      }
      UrlsFromShift(big, d, next, bigNext);
    } else {
      var next := i + 1;
      var bigNext := d + next;
      assert UrlsFrom(big, at) == UrlsFrom(big, bigNext) by {
        MatchAtShift(big, d, i, at);
        UrlsFromPass(big, at, bigNext);
      }
      assert UrlsFrom(small, i) == UrlsFrom(small, next) by {
        UrlsFromPass(small, i, next);
      }
      UrlsFromShift(big, d, next, bigNext);
    }
  }

  lemma UrlsFromEnd(html: string, pos: nat)
    requires pos >= |html|
    ensures UrlsFrom(html, pos) == []
  {
  }

  lemma UrlsFromPass(html: string, pos: nat, next: nat)
    requires pos < |html| && MatchAt(html, pos).None? && next == pos + 1
    ensures UrlsFrom(html, pos) == UrlsFrom(html, next)
  {
  }

  lemma UrlsFromStep(html: string, pos: nat, url: string, next: nat)
    requires pos < |html| && MatchAt(html, pos).Some?
    requires MatchAt(html, pos).value.url == url && MatchAt(html, pos).value.end == next
    ensures UrlsFrom(html, pos) == [url] + UrlsFrom(html, next)
  {
  }

  /** No `<img` can start in `s`: every `<` in it is followed, inside `s`, by something other than `i`. */
  predicate NoImgStart(s: string)
  {
    forall k :: 0 <= k < |s| && s[k] == '<' ==> k + 1 < |s| && s[k + 1] != 'i'
  }

  lemma {:induction false} UrlsFromSkip(pre: string, rest: string, pos: nat)
    requires pos <= |pre|
    requires forall p: nat :: p < |pre| ==> !HasAt(pre + rest, p, ImgTag)
    ensures UrlsFrom(pre + rest, pos) == UrlsFrom(pre + rest, |pre|)
    decreases |pre| - pos
  {
    if pos < |pre| {
      assert MatchAt(pre + rest, pos).None?;
      UrlsFromSkip(pre, rest, pos + 1);
    }
  }

  /** Text in which no `<img` starts contributes no URL: the search moves on to what follows it. */
  lemma ImageUrlsSkip(pre: string, rest: string)
    requires NoImgStart(pre)
    ensures ImageUrls(pre + rest) == ImageUrls(rest)
  {
    forall p: nat | p < |pre|
      ensures !HasAt(pre + rest, p, ImgTag)
    {
      assert (pre + rest)[p] == pre[p];
      if p + 1 < |pre| {
        assert (pre + rest)[p + 1] == pre[p + 1];
      }
    }
    UrlsFromSkip(pre, rest, 0);
    var len := |pre|;
    UrlsFromShift(pre + rest, len, 0, len);
    assert (pre + rest)[|pre|..] == rest;
  }

  /**
   * An `<img src="url"...>` tag at the head of the input yields its URL
   * first, and the search goes on after it. The other attributes after
   * `src` hold no `"`, `>` or `<`.
   */
  lemma ImageUrlsTag(url: string, attrs: string, rest: string)
    requires url != [] && '"' !in url && '>' !in url
    requires '"' !in attrs && '>' !in attrs && '<' !in attrs
    ensures ImageUrls("<img src=\"" + url + "\"" + attrs + ">" + rest) == [url] + ImageUrls(rest)
  {
    var html := "<img src=\"" + url + "\"" + attrs + ">" + rest;
    TagChars(url, attrs, rest);
    TagTail(url, attrs, rest);
    TagUrls(html, url, attrs, rest);
  }

  /** The same, for any input laid out as such a tag followed by `rest`. */
  lemma TagUrls(html: string, url: string, attrs: string, rest: string)
    requires TagLayout(html, url, attrs) && html[11 + |url|..] == attrs + ">" + rest
    requires url != [] && '"' !in url && '>' !in url
    requires '"' !in attrs && '>' !in attrs && '<' !in attrs
    ensures ImageUrls(html) == [url] + ImageUrls(rest)
  {
    var next := 11 + |url|;
    TagMatch(html, url, attrs);
    UrlsFromStep(html, 0, url, next);
    TagResume(html, next, attrs + ">", rest);
  }

  /** Resuming after the tag: the search sees only what follows it. */
  lemma TagResume(html: string, next: nat, skipped: string, rest: string)
    requires next <= |html| && html[next..] == skipped + rest && NoImgStart(skipped)
    ensures UrlsFrom(html, next) == ImageUrls(rest)
  {
    UrlsFromShift(html, next, 0, next);
    ImageUrlsSkip(skipped, rest);
  }

  /** What follows the closing quote of the `src` value. */
  lemma TagTail(url: string, attrs: string, rest: string)
    ensures ("<img src=\"" + url + "\"" + attrs + ">" + rest)[11 + |url|..] == attrs + ">" + rest
  {
    var head := "<img src=\"" + url + "\"";
    assert "<img src=\"" + url + "\"" + attrs + ">" + rest == head + (attrs + ">" + rest);
  }

  /** `html` starts with `<img src="url"attrs>`. */
  predicate TagLayout(html: string, url: string, attrs: string)
  {
    && 12 + |url| + |attrs| <= |html|
    && HasAt(html, 0, ImgTag) && html[4] == ' ' && HasAt(html, 5, SrcAttr)
    && (forall k :: 0 <= k < |url| ==> html[10 + k] == url[k])
    && html[10 + |url|] == '"'
    && (forall k :: 0 <= k < |attrs| ==> html[11 + |url| + k] == attrs[k])
    && html[11 + |url| + |attrs|] == '>'
  }

  /** The characters of `<img src="url"attrs>rest`, position by position. */
  lemma TagChars(url: string, attrs: string, rest: string)
    ensures TagLayout("<img src=\"" + url + "\"" + attrs + ">" + rest, url, attrs)
  {
    var html := "<img src=\"" + url + "\"" + attrs + ">" + rest;
    var pre, tail := "<img src=\"", url + "\"" + attrs + ">" + rest;
    assert html == pre + tail;
    assert html[0..4] == pre[0..4] == ImgTag;
    assert html[5..10] == pre[5..10] == SrcAttr;
    assert html[4] == pre[4] == ' ';
    var after := attrs + ">" + rest;
    assert tail == url + ("\"" + after);
    forall k | 0 <= k < |url|
      ensures html[10 + k] == url[k]
    {
      assert html[10 + k] == tail[k];
    }
    assert html[10 + |url|] == tail[|url|] == '"';
    forall k | 0 <= k < |attrs|
      ensures html[11 + |url| + k] == attrs[k]
    {
      assert html[11 + |url| + k] == after[k];
    }
    assert html[11 + |url| + |attrs|] == after[|attrs|] == '>';
  }

  /** The expression matches such a tag once, capturing `url` and ending just past its closing quote. */
  lemma TagMatch(html: string, url: string, attrs: string)
    requires TagLayout(html, url, attrs)
    requires url != [] && '"' !in url && '>' !in url
    requires '"' !in attrs && '>' !in attrs
    ensures MatchAt(html, 0).Some?
    ensures MatchAt(html, 0).value.url == url && MatchAt(html, 0).value.end == 11 + |url|
  {
    var n := |url|;
    var limit := 11 + n + |attrs|;
    assert forall k :: 4 <= k < limit ==> html[k] != '>' by {
      forall k | 4 <= k < limit
        ensures html[k] != '>'
      {
        if 5 <= k < 10 {
          assert html[5..10][k - 5] == html[k];
        } else if 10 <= k < 10 + n {
          assert html[k] == url[k - 10];
        } else if 11 + n <= k {
          assert html[k] == attrs[k - 11 - n];
        }
      }
    }
    assert FindFirst(html, 4, {'>'}) == limit;
    assert forall k :: 10 <= k < 10 + n ==> html[k] !in {'"', '>'} by {
      forall k | 10 <= k < 10 + n
        ensures html[k] !in {'"', '>'}
      {
        assert html[k] == url[k - 10];
      }
    }
    assert FindFirst(html, 10, {'"', '>'}) == 10 + n;
    assert SrcValueEnd(html, 5) == Some(10 + n);
    forall j | 5 < j < limit
      ensures SrcValueEnd(html, j).None?
    {
      NoLaterSrc(html, url, attrs, j);
    }
    assert LastSrc(html, 5, limit) == Some(5);
    assert html[10..10 + n] == url;
    MatchAtFound(html, 0, limit, 5, 10 + n);
  }

  /** After the first `src="` of the tag, no other `src` group can match before its `>`. */
  lemma NoLaterSrc(html: string, url: string, attrs: string, j: nat)
    requires TagLayout(html, url, attrs)
    requires url != [] && '"' !in url && '>' !in url
    requires '"' !in attrs && '>' !in attrs
    requires 5 < j < 11 + |url| + |attrs|
    ensures SrcValueEnd(html, j).None?
  {
    var n := |url|;
    var limit := 11 + n + |attrs|;
    if j + 4 >= limit {
      if j + 5 <= |html| {
        assert html[j..j + 5][limit - j] == html[limit];
      }
      assert !HasAt(html, j, SrcAttr);
    } else if j + 4 == 10 + n {
      var from := j + 5;
      assert forall k :: from <= k < limit ==> html[k] !in {'"', '>'} by {
        forall k | from <= k < limit
          ensures html[k] !in {'"', '>'}
        {
          assert html[k] == attrs[k - 11 - n];
        }
      }
      assert FindFirst(html, from, {'"', '>'}) == limit;
    } else {
      assert html[j + 4] != '"' by {
        if j + 4 < 10 + n {
          assert html[j + 4] == url[j + 4 - 10];
        } else {
          assert html[j + 4] == attrs[j + 4 - 11 - n];
        }
      }
      if j + 5 <= |html| {
        assert html[j..j + 5][4] == html[j + 4];
      }
    }
  }

  // ---------------------------------------------------------------------
  // stripTags and buildDescription
  // ---------------------------------------------------------------------

  /**
   * `<([^>]+)>` matches at the head of `s`: `<`, then at least one character
   * other than `>`, then a `>` (the first `>` after the `<`).
   */
  predicate TagAtHead(s: string)
  {
    |s| >= 2 && s[0] == '<' && s[1] != '>' && '>' in s[1..]
  }

  /** No position of `s` starts a match of `<([^>]+)>`. */
  predicate TagFree(s: string)
  {
    forall i :: 0 <= i < |s| ==> !TagAtHead(s[i..])
  }

  /**
   * `s.replace(/(<([^>]+)>)/ig, "")`: scanning left to right, a match at the
   * current position is dropped up to and including its `>`, otherwise one
   * character is kept.
   */
  function RemoveTags(s: string): (r: string)
    ensures forall c :: c in r ==> c in s
    ensures |r| <= |s|
    decreases |s|
  {
    if s == [] then []
    else if TagAtHead(s) then RemoveTags(s[FindFirst(s, 1, {'>'}) + 1..])
    else [s[0]] + RemoveTags(s[1..])
  }

  /** The head of a string that does not start a tag survives `RemoveTags`. */
  lemma RemoveTagsKeepsHead(s: string)
    requires s != [] && !TagAtHead(s)
    ensures RemoveTags(s) == [s[0]] + RemoveTags(s[1..])
  {
  }

  /** What `RemoveTags` leaves contains no tag. */
  lemma {:induction false} RemoveTagsTagFree(s: string)
    ensures TagFree(RemoveTags(s))
    decreases |s|
  {
    if s == [] {
    } else if TagAtHead(s) {
      RemoveTagsTagFree(s[FindFirst(s, 1, {'>'}) + 1..]);
    } else {
      var rest := RemoveTags(s[1..]);
      var r := [s[0]] + rest;
      RemoveTagsTagFree(s[1..]);
      if s[0] == '<' && |s| >= 2 && s[1] == '>' {
        RemoveTagsKeepsHead(s[1..]);
        assert rest[0] == '>';
        assert r[1] == '>';
      }
      assert !TagAtHead(r);
      forall i | 1 <= i < |r|
        ensures !TagAtHead(r[i..])
      {
        assert r[i..] == rest[i - 1..];
      }
    }
  }

  lemma TagFreeSuffix(s: string, k: nat)
    requires TagFree(s) && k <= |s|
    ensures TagFree(s[k..])
  {
    forall i | 0 <= i < |s[k..]|
      ensures !TagAtHead(s[k..][i..])
    {
      assert s[k..][i..] == s[k + i..];
    }
  }

  lemma TagFreePrefix(s: string, k: nat)
    requires TagFree(s) && k <= |s|
    ensures TagFree(s[..k])
  {
    forall i | 0 <= i < k
      ensures !TagAtHead(s[..k][i..])
    {
      assert s[..k][i..] == s[i..][..k - i];
      TagAtHeadExtends(s[i..], k - i);
    }
  }

  /** A tag at the head of a prefix is a tag at the head of the whole string. */
  lemma TagAtHeadExtends(u: string, n: nat)
    requires n <= |u|
    ensures TagAtHead(u[..n]) ==> TagAtHead(u)
  {
    if TagAtHead(u[..n]) {
      var m :| 1 <= m < n && u[..n][m] == '>';
      assert u[1..][m - 1] == '>';
    }
  }

  /**
   * The characters JavaScript's `trim` removes: WhiteSpace (tab, vertical
   * tab, form feed, space, no-break space, byte order mark and the Unicode
   * space separators) and LineTerminator (line feed, carriage return, line
   * and paragraph separator), as in ECMAScript's String.prototype.trim.
   */
  predicate IsSpace(c: char)
  {
    || c == '\t' || c == '\n' || c == '\U{000B}' || c == '\U{000C}' || c == '\r' || c == ' '
    || c == '\U{00A0}' || c == '\U{1680}' || ('\U{2000}' <= c <= '\U{200A}')
    || c == '\U{2028}' || c == '\U{2029}' || c == '\U{202F}' || c == '\U{205F}'
    || c == '\U{3000}' || c == '\U{FEFF}'
  }

  /** Leading white space removed. */
  function TrimStart(s: string): (r: string)
    ensures |r| <= |s| && r == s[|s| - |r|..]
    ensures forall k :: 0 <= k < |s| - |r| ==> IsSpace(s[k])
    ensures r != [] ==> !IsSpace(r[0])
    decreases |s|
  {
    if s != [] && IsSpace(s[0]) then TrimStart(s[1..]) else s
  }

  /** Trailing white space removed. */
  function TrimEnd(s: string): (r: string)
    ensures |r| <= |s| && r == s[..|r|]
    ensures forall k :: |r| <= k < |s| ==> IsSpace(s[k])
    ensures r != [] ==> !IsSpace(r[|r| - 1])
    decreases |s|
  {
    if s != [] && IsSpace(s[|s| - 1]) then TrimEnd(s[..|s| - 1]) else s
  }

  /** `s.trim()`. */
  function Trim(s: string): (r: string)
    ensures |r| <= |s|
    ensures r != [] ==> !IsSpace(r[|r| - 1])
  {
    TrimEnd(TrimStart(s))
  }

  /** Trimming leaves a slice of the input with white space at neither end, and changes nothing more. */
  lemma TrimSpec(s: string)
    ensures var r, a := Trim(s), |s| - |TrimStart(s)|;
      && (r != [] ==> !IsSpace(r[0]) && !IsSpace(r[|r| - 1]))
      && a + |r| <= |s| && (forall k :: 0 <= k < |r| ==> r[k] == s[a + k])
      && (forall k :: 0 <= k < a ==> IsSpace(s[k]))
      && (forall k :: a + |r| <= k < |s| ==> IsSpace(s[k]))
  {
    TrimEnds(s);
    TrimSlice(s);
  }

  /** The trimmed string starts and ends with a character that is not white space. */
  lemma TrimEnds(s: string)
    ensures Trim(s) != [] ==> !IsSpace(Trim(s)[0]) && !IsSpace(Trim(s)[|Trim(s)| - 1])
  {
    var t := TrimStart(s);
    var r := TrimEnd(t);
    if r != [] {
      assert r[0] == t[0];
    }
  }

  /** The trimmed string is the slice of `s` between the leading and the trailing white space. */
  lemma TrimSlice(s: string)
    ensures var r, a := Trim(s), |s| - |TrimStart(s)|;
      && a + |r| <= |s| && (forall k :: 0 <= k < |r| ==> r[k] == s[a + k])
      && (forall k :: 0 <= k < a ==> IsSpace(s[k]))
      && (forall k :: a + |r| <= k < |s| ==> IsSpace(s[k]))
  {
    var t := TrimStart(s);
    var r := TrimEnd(t);
    var a := |s| - |t|;
    SliceOfSlice(s, t, r, a);
    forall k | a + |r| <= k < |s|
      ensures IsSpace(s[k])
    {
      assert IsSpace(t[k - a]);
    }
  }

  /** A prefix `r` of a suffix `t` of `s` is the slice of `s` at the suffix's offset. */
  lemma SliceOfSlice<T>(s: seq<T>, t: seq<T>, r: seq<T>, a: nat)
    requires a <= |s| && t == s[a..]
    requires |r| <= |t| && r == t[..|r|]
    ensures a + |r| <= |s|
    ensures forall k :: 0 <= k < |r| ==> r[k] == s[a + k]
    ensures forall k :: a <= k < |s| ==> s[k] == t[k - a]
  {
  }

  /** Trimming an already trimmed string changes nothing. */
  lemma TrimIdempotent(s: string)
    ensures Trim(Trim(s)) == Trim(s)
  {
    var r := Trim(s);
    TrimSpec(s);
    assert TrimStart(r) == r;
    assert TrimEnd(r) == r;
  }

  const CdataOpen: string := "<![CDATA["
  const CdataClose: string := "]]>"

  predicate HasSuffix(s: string, suffix: string)
  {
    |suffix| <= |s| && s[|s| - |suffix|..] == suffix
  }

  /**
   * `s.replace(/^<!\[CDATA\[|\]\]>$/g, '')`: the opening marker is removed at
   * the start and the closing marker at the end. The two can never overlap
   * (no suffix of the opening marker is a prefix of the closing one), so
   * removing one after the other is the same as the global replacement.
   */
  function StripCdata(s: string): (r: string)
    ensures |s| - |CdataOpen| - |CdataClose| <= |r| <= |s|
  {
    var t := if HasPrefix(s, CdataOpen) then s[|CdataOpen|..] else s;
    if HasSuffix(t, CdataClose) then t[..|t| - |CdataClose|] else t
  }

  /** A CDATA section loses exactly its two markers. */
  lemma CdataUnwrap(x: string)
    ensures StripCdata(CdataOpen + x + CdataClose) == x
  {
    var s := CdataOpen + x + CdataClose;
    assert s[..|CdataOpen|] == CdataOpen;
    var t := s[|CdataOpen|..];
    assert t == x + CdataClose;
    assert t[|t| - |CdataClose|..] == CdataClose;
    assert t[..|t| - |CdataClose|] == x;
  }

  /** Text without the markers passes unchanged. */
  lemma CdataAbsent(s: string)
    requires !HasPrefix(s, CdataOpen) && !HasSuffix(s, CdataClose)
    ensures StripCdata(s) == s
  {
  }

  /** A leading run of newlines removed. */
  function DropNewlines(s: string): (r: string)
    ensures |r| <= |s| && r == s[|s| - |r|..]
    ensures forall k :: 0 <= k < |s| - |r| ==> s[k] == '\n'
    ensures r != [] ==> r[0] != '\n'
    decreases |s|
  {
    if s != [] && s[0] == '\n' then DropNewlines(s[1..]) else s
  }

  /** `s.replace(/\n+/g, ' ')`: each maximal run of newlines becomes one space. */
  function CollapseNewlines(s: string): (r: string)
    ensures '\n' !in r
    ensures |r| <= |s|
    ensures forall c :: c in r && c != ' ' ==> c in s
    decreases |s|
  {
    if s == [] then []
    else if s[0] == '\n' then [' '] + CollapseNewlines(DropNewlines(s[1..]))
    else [s[0]] + CollapseNewlines(s[1..])
  }

  /** Text without newlines passes unchanged. */
  lemma {:induction false} CollapseNoNewlines(s: string)
    requires '\n' !in s
    ensures CollapseNewlines(s) == s
  {
    if s != [] {
      CollapseNoNewlines(s[1..]);
    }
  }

  /** A run of newlines in front of text that does not start with one is dropped whole. */
  lemma {:induction false} DropRun(run: string, y: string)
    requires forall k :: 0 <= k < |run| ==> run[k] == '\n'
    requires y == [] || y[0] != '\n'
    ensures DropNewlines(run + y) == y
  {
    if run == [] {
      assert run + y == y;
    } else {
      assert (run + y)[1..] == run[1..] + y;
      DropRun(run[1..], y);
    }
  }

  /** Between newline-free text, a run of one or more newlines becomes exactly one space. */
  lemma {:induction false} CollapseRun(x: string, run: string, y: string)
    requires '\n' !in x && '\n' !in y
    requires run != [] && forall k :: 0 <= k < |run| ==> run[k] == '\n'
    ensures CollapseNewlines(x + run + y) == x + " " + y
  {
    if x == [] {
      assert x + run + y == run + y;
      CollapseRunHead(run, y);
    } else {
      var s := x + run + y;
      assert s[1..] == x[1..] + run + y;
      CollapseRun(x[1..], run, y);
      CollapseCons(s, x[0], x[1..] + " " + y);
      assert x + " " + y == [x[0]] + (x[1..] + " " + y);
    }
  }

  /** A leading run of newlines becomes one space. */
  lemma CollapseRunHead(run: string, y: string)
    requires '\n' !in y
    requires run != [] && forall k :: 0 <= k < |run| ==> run[k] == '\n'
    ensures CollapseNewlines(run + y) == " " + y
  {
    var s := run + y;
    assert s[0] == '\n' && s[1..] == run[1..] + y;
    DropRun(run[1..], y);
    CollapseNoNewlines(y);
  }

  /** A first character other than a newline is kept in front of the collapsed rest. */
  lemma CollapseCons(s: string, c: char, r: string)
    requires s != [] && s[0] == c && c != '\n' && CollapseNewlines(s[1..]) == r
    ensures CollapseNewlines(s) == [c] + r
  {
  }

  /** Collapsing keeps the last character when it is not a newline. */
  lemma {:induction false} CollapseLast(s: string)
    requires s != [] && s[|s| - 1] != '\n'
    ensures var r := CollapseNewlines(s); r != [] && r[|r| - 1] == s[|s| - 1]
    decreases |s|
  {
    if s[0] == '\n' {
      var d := DropNewlines(s[1..]);
      assert d == s[|s| - |d|..];
      assert d != [] && d[|d| - 1] == s[|s| - 1];
      CollapseLast(d);
    } else if |s| > 1 {
      CollapseLast(s[1..]);
    }
  }

  /** Collapsing newlines creates no tag. */
  lemma {:induction false} CollapseTagFree(s: string)
    requires TagFree(s)
    ensures TagFree(CollapseNewlines(s))
    decreases |s|
  {
    if s == [] {
    } else if s[0] == '\n' {
      var d := DropNewlines(s[1..]);
      TagFreeSuffix(s, |s| - |d|);
      assert s[|s| - |d|..] == d;
      CollapseTagFree(d);
      ConsTagFree(' ', CollapseNewlines(d));
    } else {
      TagFreeSuffix(s, 1);
      CollapseTagFree(s[1..]);
      assert s[0..] == s;
      CollapseHeadNoTag(s);
      ConsTagFree(s[0], CollapseNewlines(s[1..]));
    }
  }

  /** A character in front of a tag-free string adds no tag unless it starts one. */
  lemma ConsTagFree(c: char, rest: string)
    requires TagFree(rest) && !TagAtHead([c] + rest)
    ensures TagFree([c] + rest)
  {
    var r := [c] + rest;
    forall i | 1 <= i < |r|
      ensures !TagAtHead(r[i..])
    {
      assert r[i..] == rest[i - 1..];
    }
  }

  /** When `s` does not start with a tag, neither does its collapsed form. */
  lemma CollapseHeadNoTag(s: string)
    requires s != [] && s[0] != '\n' && !TagAtHead(s)
    ensures !TagAtHead([s[0]] + CollapseNewlines(s[1..]))
  {
    var rest := CollapseNewlines(s[1..]);
    var r := [s[0]] + rest;
    if s[0] == '<' && |s| >= 2 {
      if s[1] == '>' {
        assert rest[0] == '>';
        assert r[1] == '>';
      } else {
        assert '>' !in s[1..];
        assert '>' !in rest;
        assert r[1..] == rest;
      }
    }
  }

  /** `stripTags(s)`: tags removed, then trimmed. */
  function StripTags(s: string): (r: string)
    ensures |r| <= |s|
  {
    Trim(RemoveTags(s))
  }

  /** What `stripTags` returns has no tag and no white space at either end. */
  lemma StripTagsSpec(s: string)
    ensures var r := StripTags(s);
      && TagFree(r)
      && (r != [] ==> !IsSpace(r[0]) && !IsSpace(r[|r| - 1]))
  {
    var x := RemoveTags(s);
    RemoveTagsTagFree(s);
    TrimFree(x);
    TrimSpec(x);
  }

  /** Trimming a tag-free string leaves it tag free. */
  lemma TrimFree(s: string)
    requires TagFree(s)
    ensures TagFree(Trim(s))
  {
    var t := TrimStart(s);
    TagFreeSuffix(s, |s| - |t|);
    TagFreePrefix(t, |TrimEnd(t)|);
  }

  /**
   * `buildDescription(val)`: trim, drop the CDATA markers, strip the tags
   * (which trims again), then turn every run of newlines into one space.
   */
  function BuildDescription(val: string): (r: string)
    ensures |r| <= |val|
    ensures '\n' !in r
  {
    CollapseNewlines(StripTags(StripCdata(Trim(val))))
  }

  /**
   * The description has no newline, no tag, and no white space at either
   * end: the newline runs it had were all inside and became single spaces.
   */
  lemma BuildDescriptionSpec(val: string)
    ensures var r := BuildDescription(val);
      && '\n' !in r
      && TagFree(r)
      && (r != [] ==> !IsSpace(r[0]) && !IsSpace(r[|r| - 1]))
  {
    var y := StripCdata(Trim(val));
    StripTagsSpec(y);
    CollapseClean(StripTags(y));
  }

  /** Collapsing a tag-free string with no white space at either end keeps all three facts. */
  lemma CollapseClean(x: string)
    requires TagFree(x) && (x != [] ==> !IsSpace(x[0]) && !IsSpace(x[|x| - 1]))
    ensures var r := CollapseNewlines(x);
      && TagFree(r)
      && (r != [] ==> !IsSpace(r[0]) && !IsSpace(r[|r| - 1]))
  {
    var r := CollapseNewlines(x);
    CollapseTagFree(x);
    if x != [] {
      assert x[0] != '\n' && x[|x| - 1] != '\n';
      assert r == [x[0]] + CollapseNewlines(x[1..]);
      CollapseLast(x);
    }
  }

  /** Text already free of tags passes `RemoveTags` unchanged. */
  lemma {:induction false} RemoveTagsFree(s: string)
    requires TagFree(s)
    ensures RemoveTags(s) == s
    decreases |s|
  {
    if s != [] {
      assert !TagAtHead(s[0..]) && s[0..] == s;
      RemoveTagsKeepsHead(s);
      TagFreeSuffix(s, 1);
      RemoveTagsFree(s[1..]);
    }
  }

  /** Text with no white space at either end passes `trim` unchanged. */
  lemma TrimClean(s: string)
    requires s != [] ==> !IsSpace(s[0]) && !IsSpace(s[|s| - 1])
    ensures Trim(s) == s
  {
    assert TrimStart(s) == s;
    assert TrimEnd(s) == s;
  }

  /** Plain text: no tag, no newline, no white space at either end. */
  predicate Plain(x: string)
  {
    TagFree(x) && '\n' !in x && (x != [] ==> !IsSpace(x[0]) && !IsSpace(x[|x| - 1]))
  }

  /** Plain text passes `stripTags` and the newline replacement unchanged. */
  lemma PlainStrip(x: string)
    requires Plain(x)
    ensures CollapseNewlines(StripTags(x)) == x
  {
    RemoveTagsFree(x);
    TrimClean(x);
    CollapseNoNewlines(x);
  }

  /** Plain text that does not look like a CDATA section is its own description. */
  lemma BuildDescriptionPlain(x: string)
    requires Plain(x) && !HasPrefix(x, CdataOpen) && !HasSuffix(x, CdataClose)
    ensures BuildDescription(x) == x
  {
    TrimClean(x);
    CdataAbsent(x);
    PlainStrip(x);
  }

  /** A CDATA section holding plain text describes as exactly that text. */
  lemma BuildDescriptionCdata(x: string)
    requires Plain(x)
    ensures BuildDescription(CdataOpen + x + CdataClose) == x
  {
    var s := CdataOpen + x + CdataClose;
    assert s[0] == '<' && s[|s| - 1] == '>';
    TrimClean(s);
    CdataUnwrap(x);
    PlainStrip(x);
  }
}
