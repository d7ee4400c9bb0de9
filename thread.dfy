/**
 * The thread-delivery engine of src/bsky.ts as values: the linkage context,
 * `createPostObject`, and `Deliver`, which says what `postThread` sends to
 * the posting service and where it stops, given the service's answers.
 * The store effect of a run and the keys of failed threads are here too.
 */
module Thread {
  import opened Wrappers
  import opened Types

  /** The context `postThread` carries from one part to the next. */
  datatype Context = Context(previousUri: Option<string>, previousCid: Option<string>,
                             rootUri: Option<string>, rootCid: Option<string>,
                             retryKey: Option<string>)

  /** The default context of a fresh thread: every field undefined. */
  const EmptyContext: Context := Context(None, None, None, None, None)

  /**
   * `createPostObject(post, context)`: a copy of the post, with a `reply`
   * to the root and to the previous part exactly when all four linkage
   * fields are truthy.
   */
  function CreatePostObject(post: Post, context: Context): (o: PostObject)
    ensures o.post == post
    ensures o.reply.Some? <==>
      Truthy(context.previousUri) && Truthy(context.rootUri) && Truthy(context.previousCid) && Truthy(context.rootCid)
    ensures o.reply.Some? ==>
      o.reply.value == ReplyRef(StrongRef(context.rootUri.value, context.rootCid.value),
                                StrongRef(context.previousUri.value, context.previousCid.value))
  {
    if Truthy(context.previousUri) && Truthy(context.rootUri) && Truthy(context.previousCid) && Truthy(context.rootCid) then
      PostObject(post, Some(ReplyRef(StrongRef(context.rootUri.value, context.rootCid.value),
                                     StrongRef(context.previousUri.value, context.previousCid.value))))
    else
      PostObject(post, None)
  }

  /**
   * The answer of the posting service to its call number `n`: the scripted
   * answer, or a failure once the script is exhausted.
   */
  function ReplyAt(service: seq<Response>, n: nat): (r: Response)
    ensures n >= |service| ==> r.Failed?
  {
    if n < |service| then service[n] else Failed
  }

  /**
   * The context for the next part after a successful post: the response
   * becomes the previous part, and the root is kept when already set
   * (`context.rootUri || response.uri`).
   */
  function Advance(context: Context, response: Response): (r: Context)
    requires response.Posted?
    ensures r.previousUri == response.uri && r.previousCid == response.cid
    ensures Truthy(context.rootUri) ==> r.rootUri == context.rootUri
    ensures !Truthy(context.rootUri) ==> r.rootUri == response.uri
    ensures Truthy(context.rootCid) ==> r.rootCid == context.rootCid
    ensures !Truthy(context.rootCid) ==> r.rootCid == response.cid
    ensures r.retryKey == context.retryKey
  {
    Context(response.uri, response.cid,
            Or(context.rootUri, response.uri), Or(context.rootCid, response.cid),
            context.retryKey)
  }

  /** Calls `calls .. calls + i - 1` were all answered with a response. */
  predicate PostedRun(service: seq<Response>, calls: nat, i: nat)
  {
    forall n :: calls <= n < calls + i ==> ReplyAt(service, n).Posted?
  }

  /** The context after `i` successful parts, starting from `context` at call `calls`. */
  function ContextAfter(context: Context, service: seq<Response>, calls: nat, i: nat): Context
    requires PostedRun(service, calls, i)
  {
    if i == 0 then context
    else Advance(ContextAfter(context, service, calls, i - 1), ReplyAt(service, calls + i - 1))
  }

  /** How a run of `postThread` ends: every part posted, or stopped at a part with the context it had. */
  datatype Outcome = Completed | Stopped(remaining: seq<Post>, context: Context)

  /** The objects handed to the posting service, in order, and the outcome. */
  datatype Run = Run(sent: seq<PostObject>, outcome: Outcome)

  /**
   * `postThread(agent, posts, env, context)` with the service answering
   * call `calls` first: each part is posted with the current context; a
   * failure stops the run with the failed part and everything after it.
   */
  function Deliver(posts: seq<Post>, context: Context, service: seq<Response>, calls: nat): (r: Run)
    ensures |r.sent| <= |posts|
    decreases |posts|
  {
    if posts == [] then Run([], Completed)
    else
      var first := CreatePostObject(posts[0], context);
      var response := ReplyAt(service, calls);
      if response.Failed? then Run([first], Stopped(posts, context))
      else
        var rest := Deliver(posts[1..], Advance(context, response), service, calls + 1);
        Run([first] + rest.sent, rest.outcome)
  }

  lemma {:induction false} ContextAfterShift(context: Context, service: seq<Response>, calls: nat, i: nat)
    requires ReplyAt(service, calls).Posted? && PostedRun(service, calls + 1, i)
    ensures PostedRun(service, calls, i + 1)
    ensures ContextAfter(Advance(context, ReplyAt(service, calls)), service, calls + 1, i)
         == ContextAfter(context, service, calls, i + 1)
  {
    if i > 0 {
      ContextAfterShift(context, service, calls, i - 1);
    }
  }

  /**
   * A completed run sent every part; a stopped run sent at least one, and
   * saves the failed part and everything after it with a context that
   * keeps the retry key.
   */
  lemma {:induction false} DeliverShape(posts: seq<Post>, context: Context, service: seq<Response>, calls: nat)
    ensures var r := Deliver(posts, context, service, calls);
      && |r.sent| <= |posts|
      && (r.outcome.Completed? ==> |r.sent| == |posts|)
      && (r.outcome.Stopped? ==> && 1 <= |r.sent|
                                 && r.outcome.remaining == posts[|r.sent| - 1..]
                                 && r.outcome.context.retryKey == context.retryKey)
    decreases |posts|
  {
    if posts != [] && ReplyAt(service, calls).Posted? {
      var next := Advance(context, ReplyAt(service, calls));
      var rest := Deliver(posts[1..], next, service, calls + 1);
      DeliverCons(posts, context, service, calls);
      DeliverShape(posts[1..], next, service, calls + 1);
      if rest.outcome.Stopped? {
        assert posts[1..][|rest.sent| - 1..] == posts[|rest.sent|..];
      }
    }
  }

  /**
   * A run stops exactly at the first failed call: a completed run had every
   * call answered; a stopped run had every call answered but its last, and
   * saves the context the failed part was sent with.
   */
  lemma {:induction false} DeliverStops(posts: seq<Post>, context: Context, service: seq<Response>, calls: nat)
    ensures var r := Deliver(posts, context, service, calls);
      r.outcome.Completed? ==> PostedRun(service, calls, |posts|)
    ensures var r := Deliver(posts, context, service, calls);
      r.outcome.Stopped? ==> && 1 <= |r.sent|
                             && PostedRun(service, calls, |r.sent| - 1)
                             && ReplyAt(service, calls + |r.sent| - 1).Failed?
                             && r.outcome.context == ContextAfter(context, service, calls, |r.sent| - 1)
    decreases |posts|
  {
    DeliverShape(posts, context, service, calls);
    if posts != [] && ReplyAt(service, calls).Posted? {
      var next := Advance(context, ReplyAt(service, calls));
      var rest := Deliver(posts[1..], next, service, calls + 1);
      DeliverCons(posts, context, service, calls);
      DeliverStops(posts[1..], next, service, calls + 1);
      DeliverShape(posts[1..], next, service, calls + 1);
      if rest.outcome.Completed? {
        ContextAfterShift(context, service, calls, |posts| - 1);
      } else {
        ContextAfterShift(context, service, calls, |rest.sent| - 1);
      }
    }
  }

  /** Parts are posted strictly in list order, part `j` with the context left by the `j` parts before it. */
  lemma {:induction false} DeliverSent(posts: seq<Post>, context: Context, service: seq<Response>, calls: nat, j: nat)
    requires j < |Deliver(posts, context, service, calls).sent|
    ensures PostedRun(service, calls, j) && j < |posts|
    ensures Deliver(posts, context, service, calls).sent[j] == CreatePostObject(posts[j], ContextAfter(context, service, calls, j))
    decreases |posts|
  {
    DeliverShape(posts, context, service, calls);
    if j > 0 {
      var next := Advance(context, ReplyAt(service, calls));
      var rest := Deliver(posts[1..], next, service, calls + 1);
      assert Deliver(posts, context, service, calls).sent[j] == rest.sent[j - 1];
      DeliverSent(posts[1..], next, service, calls + 1, j - 1);
      ContextAfterShift(context, service, calls, j - 1);
    }
  }

  /** After at least one successful part, the previous part is the last response; the retry key never changes. */
  lemma {:induction false} ContextPrevious(context: Context, service: seq<Response>, calls: nat, i: nat)
    requires PostedRun(service, calls, i)
    ensures ContextAfter(context, service, calls, i).retryKey == context.retryKey
    ensures i > 0 ==> ContextAfter(context, service, calls, i).previousUri == ReplyAt(service, calls + i - 1).uri
    ensures i > 0 ==> ContextAfter(context, service, calls, i).previousCid == ReplyAt(service, calls + i - 1).cid
  {
    if i > 0 {
      ContextPrevious(context, service, calls, i - 1);
    }
  }

  /** Once the root is set it is carried unchanged to every later part. */
  lemma {:induction false} RootCarried(context: Context, service: seq<Response>, calls: nat, i: nat, j: nat)
    requires i <= j && PostedRun(service, calls, j)
    ensures PostedRun(service, calls, i)
    ensures Truthy(ContextAfter(context, service, calls, i).rootUri) ==>
      ContextAfter(context, service, calls, j).rootUri == ContextAfter(context, service, calls, i).rootUri
    ensures Truthy(ContextAfter(context, service, calls, i).rootCid) ==>
      ContextAfter(context, service, calls, j).rootCid == ContextAfter(context, service, calls, i).rootCid
    decreases j - i
  {
    if i < j {
      RootCarried(context, service, calls, i, j - 1);
    }
  }

  /** The first part of a thread started without a root makes its response the root. */
  lemma FirstIsRoot(context: Context, service: seq<Response>, calls: nat)
    requires PostedRun(service, calls, 1)
    ensures ContextAfter(context, service, calls, 1).rootUri == Or(context.rootUri, ReplyAt(service, calls).uri)
    ensures ContextAfter(context, service, calls, 1).rootCid == Or(context.rootCid, ReplyAt(service, calls).cid)
  {
  }

  /** The service answers every call it accepts with a usable reference. */
  predicate ProperAnswers(service: seq<Response>)
  {
    forall n :: 0 <= n < |service| && service[n].Posted? ==> Truthy(service[n].uri) && Truthy(service[n].cid)
  }

  /**
   * A fresh thread: part 0 is sent without `reply`; part `i > 0` replies to
   * the response of part `i - 1` as parent and to that of part 0 as root.
   */
  lemma ThreadLinkage(posts: seq<Post>, service: seq<Response>, calls: nat, i: nat)
    requires ProperAnswers(service)
    requires i < |Deliver(posts, EmptyContext, service, calls).sent|
    ensures i < |posts|
    ensures i == 0 ==> Deliver(posts, EmptyContext, service, calls).sent[0] == PostObject(posts[0], None)
    ensures i > 0 ==>
      && ReplyAt(service, calls).Posted? && ReplyAt(service, calls + i - 1).Posted?
      && Deliver(posts, EmptyContext, service, calls).sent[i] ==
           PostObject(posts[i], Some(ReplyRef(
             StrongRef(ReplyAt(service, calls).uri.value, ReplyAt(service, calls).cid.value),
             StrongRef(ReplyAt(service, calls + i - 1).uri.value, ReplyAt(service, calls + i - 1).cid.value))))
  {
    DeliverSent(posts, EmptyContext, service, calls, i);
    if i > 0 {
      ContextPrevious(EmptyContext, service, calls, i);
      FirstIsRoot(EmptyContext, service, calls);
      RootCarried(EmptyContext, service, calls, 1, i);
    }
  }

  /** The retry key plays no part in what is sent; it only travels into the outcome. */
  function WithKey(r: Run, key: Option<string>): Run
  {
    match r.outcome
    case Completed => r
    case Stopped(remaining, c) => Run(r.sent, Stopped(remaining, c.(retryKey := key)))
  }

  lemma {:induction false} DeliverKey(posts: seq<Post>, context: Context, service: seq<Response>, calls: nat, key: Option<string>)
    ensures Deliver(posts, context.(retryKey := key), service, calls) == WithKey(Deliver(posts, context, service, calls), key)
    decreases |posts|
  {
    if posts != [] && ReplyAt(service, calls).Posted? {
      var response := ReplyAt(service, calls);
      assert Advance(context.(retryKey := key), response) == Advance(context, response).(retryKey := key);
      DeliverKey(posts[1..], Advance(context, response), service, calls + 1, key);
    }
  }

  /** Calls `k .. k + count - 1` of `s` are answered as calls `m .. m + count - 1` of `t`. */
  predicate SameAnswers(s: seq<Response>, k: nat, t: seq<Response>, m: nat, count: nat)
  {
    forall n :: k <= n < k + count ==> ReplyAt(s, n) == ReplyAt(t, m + (n - k))
  }

  lemma SameAnswersNext(s: seq<Response>, k: nat, t: seq<Response>, m: nat, count: nat)
    requires count > 0 && SameAnswers(s, k, t, m, count)
    ensures ReplyAt(s, k) == ReplyAt(t, m)
    ensures SameAnswers(s, k + 1, t, m + 1, count - 1)
  {
    assert ReplyAt(s, k) == ReplyAt(t, m + (k - k));
  }

  /** A run depends only on the answers to the calls it makes. */
  lemma {:induction false} DeliverSameAnswers(posts: seq<Post>, context: Context, s: seq<Response>, k: nat, t: seq<Response>, m: nat)
    requires SameAnswers(s, k, t, m, |posts|)
    ensures Deliver(posts, context, s, k) == Deliver(posts, context, t, m)
    decreases |posts|
  {
    if posts != [] {
      SameAnswersNext(s, k, t, m, |posts|);
      if ReplyAt(s, k).Posted? {
        DeliverSameAnswers(posts[1..], Advance(context, ReplyAt(s, k)), s, k + 1, t, m + 1);
      }
    }
  }

  /** The context after `i` parts depends only on the answers to those calls. */
  lemma {:induction false} ContextSameAnswers(context: Context, s: seq<Response>, k: nat, t: seq<Response>, m: nat, i: nat)
    requires PostedRun(s, k, i) && SameAnswers(s, k, t, m, i)
    ensures PostedRun(t, m, i)
    ensures ContextAfter(context, s, k, i) == ContextAfter(context, t, m, i)
  {
    assert PostedRun(t, m, i) by {
      forall n | m <= n < m + i
        ensures ReplyAt(t, n).Posted?
      {
        assert ReplyAt(s, k + (n - m)) == ReplyAt(t, m + ((k + (n - m)) - k));
      }
    }
    if i > 0 {
      assert SameAnswers(s, k, t, m, i - 1);
      ContextSameAnswers(context, s, k, t, m, i - 1);
      assert ReplyAt(s, k + i - 1) == ReplyAt(t, m + ((k + i - 1) - k));
    }
  }

  /**
   * A thread whose first `m` parts are answered is those `m` parts followed
   * by the rest of the thread delivered from the context they leave behind.
   */
  lemma {:induction false} DeliverSplit(posts: seq<Post>, context: Context, service: seq<Response>, calls: nat, m: nat)
    requires m <= |posts| && PostedRun(service, calls, m)
    ensures var head := Deliver(posts[..m], context, service, calls);
            var tail := Deliver(posts[m..], ContextAfter(context, service, calls, m), service, calls + m);
      && head.outcome.Completed? && |head.sent| == m
      && Deliver(posts, context, service, calls) == Run(head.sent + tail.sent, tail.outcome)
  {
    DeliverHead(posts[..m], context, service, calls);
    DeliverAppend(posts[..m], posts[m..], context, service, calls);
    assert posts[..m] + posts[m..] == posts;
  }

  /** A run whose every call is answered completes and hands over every part. */
  lemma {:induction false} DeliverHead(posts: seq<Post>, context: Context, service: seq<Response>, calls: nat)
    requires PostedRun(service, calls, |posts|)
    ensures Deliver(posts, context, service, calls).outcome.Completed?
    ensures |Deliver(posts, context, service, calls).sent| == |posts|
    decreases |posts|
  {
    if posts != [] {
      assert ReplyAt(service, calls).Posted?;
      DeliverHead(posts[1..], Advance(context, ReplyAt(service, calls)), service, calls + 1);
      DeliverCons(posts, context, service, calls);
    }
  }

  /** Delivering `a + b` is delivering `a`, every part of it answered, then `b` from the context `a` leaves behind. */
  lemma {:induction false} DeliverAppend(a: seq<Post>, b: seq<Post>, context: Context, service: seq<Response>, calls: nat)
    requires PostedRun(service, calls, |a|)
    ensures var head := Deliver(a, context, service, calls);
            var tail := Deliver(b, ContextAfter(context, service, calls, |a|), service, calls + |a|);
      Deliver(a + b, context, service, calls) == Run(head.sent + tail.sent, tail.outcome)
    decreases |a|
  {
    if a == [] {
      assert a + b == b;
    } else {
      assert ReplyAt(service, calls).Posted?;
      var next := Advance(context, ReplyAt(service, calls));
      var c1, k, a1 := calls + 1, |a| - 1, a[1..];
      assert (a + b)[1..] == a1 + b && (a + b)[0] == a[0];
      var o := CreatePostObject(a[0], context);
      var head1 := Deliver(a1, next, service, c1);
      var tail := Deliver(b, ContextAfter(context, service, calls, |a|), service, calls + |a|);
      assert Deliver(a1 + b, next, service, c1) == Run(head1.sent + tail.sent, tail.outcome) by {
        assert PostedRun(service, c1, k);
        DeliverAppend(a1, b, next, service, c1);
        ContextAfterShift(context, service, calls, k);
        assert |a1| == k && c1 + k == calls + |a| && k + 1 == |a|;
      }
      assert Deliver(a + b, context, service, calls) == Run([o] + Deliver(a1 + b, next, service, c1).sent, tail.outcome) by {
        DeliverCons(a + b, context, service, calls);
      }
      assert Deliver(a, context, service, calls).sent == [o] + head1.sent by {
        DeliverCons(a, context, service, calls);
      }
      assert [o] + (head1.sent + tail.sent) == ([o] + head1.sent) + tail.sent;
    }
  }

  /** One answered part, then the rest of the thread from the advanced context. */
  lemma DeliverCons(posts: seq<Post>, context: Context, service: seq<Response>, calls: nat)
    requires posts != [] && ReplyAt(service, calls).Posted?
    ensures var rest := Deliver(posts[1..], Advance(context, ReplyAt(service, calls)), service, calls + 1);
      Deliver(posts, context, service, calls) == Run([CreatePostObject(posts[0], context)] + rest.sent, rest.outcome)
  {
  }

  /**
   * The answers an uninterrupted thread would get when the first `m` calls
   * are answered as in `s` from `k` and the later ones as in `t` from `h`.
   */
  function Spliced(s: seq<Response>, k: nat, m: nat, t: seq<Response>, h: nat): (u: seq<Response>)
    ensures SameAnswers(s, k, u, 0, m)
    ensures forall count: nat :: SameAnswers(u, m, t, h, count)
  {
    var u := seq(m, j requires 0 <= j => ReplyAt(s, k + j)) + (if h <= |t| then t[h..] else []);
    assert forall n :: m <= n ==> ReplyAt(u, n) == ReplyAt(t, h + (n - m));
    u
  }

  /**
   * Resuming a stored record continues the thread: a run that stopped after
   * `n` calls, followed by a retry of its record (with any retry key) against
   * later answers, sends exactly what one uninterrupted run of the whole list
   * sends when the failed call is answered as the retry's first call was,
   * and ends the same way.
   */
  lemma ResumeContinues(posts: seq<Post>, context: Context, s: seq<Response>, k: nat,
                        t: seq<Response>, h: nat, key: Option<string>)
    requires Deliver(posts, context, s, k).outcome.Stopped?
    ensures var first := Deliver(posts, context, s, k);
            var n := |first.sent|;
            var retry := Deliver(first.outcome.remaining, first.outcome.context.(retryKey := key), t, h);
      && var whole := Deliver(posts, context, Spliced(s, k, n - 1, t, h), 0);
      && whole.sent == first.sent[..n - 1] + retry.sent
      && whole.outcome == WithKey(retry, context.retryKey).outcome
  {
    var first := Deliver(posts, context, s, k);
    var m := |first.sent| - 1;
    assert PostedRun(s, k, m) && m < |posts| by {
      DeliverStops(posts, context, s, k);
      DeliverShape(posts, context, s, k);
    }
    var c := ContextAfter(context, s, k, m);
    assert first.outcome.remaining == posts[m..] && first.outcome.context == c by {
      DeliverStops(posts, context, s, k);
      DeliverShape(posts, context, s, k);
    }
    var u := Spliced(s, k, m, t, h);
    var head := Deliver(posts[..m], context, s, k);
    var tail := Deliver(posts[m..], c, u, m);
    assert Deliver(posts, context, u, 0) == Run(head.sent + tail.sent, tail.outcome)
        && first.sent[..m] == head.sent by {
      ResumeHead(posts, context, s, k, u, m);
    }
    var retry := Deliver(posts[m..], c.(retryKey := key), t, h);
    assert tail == WithKey(retry, context.retryKey) by {
      ContextPrevious(context, s, k, m);
      assert SameAnswers(u, m, t, h, |posts[m..]|);
      ResumeTail(posts[m..], c, u, m, t, h, key);
    }
  }

  /** The tail of the uninterrupted run is the retry, up to the retry key it carries. */
  lemma ResumeTail(rem: seq<Post>, c: Context, u: seq<Response>, m: nat, t: seq<Response>, h: nat, key: Option<string>)
    requires SameAnswers(u, m, t, h, |rem|)
    ensures Deliver(rem, c, u, m) == WithKey(Deliver(rem, c.(retryKey := key), t, h), c.retryKey)
  {
    DeliverSameAnswers(rem, c, u, m, t, h);
    DeliverKey(rem, c, t, h, key);
    var r := Deliver(rem, c, t, h);
    if r.outcome.Stopped? {
      assert r.outcome.context.(retryKey := key).(retryKey := c.retryKey) == r.outcome.context;
    }
  }

  /** The common head of the interrupted and the uninterrupted run. */
  lemma ResumeHead(posts: seq<Post>, context: Context, s: seq<Response>, k: nat, u: seq<Response>, m: nat)
    requires m <= |posts| && PostedRun(s, k, m) && SameAnswers(s, k, u, 0, m)
    ensures PostedRun(u, 0, m)
    ensures ContextAfter(context, s, k, m) == ContextAfter(context, u, 0, m)
    ensures var head := Deliver(posts[..m], context, s, k);
      && Deliver(posts, context, s, k) == Run(head.sent + Deliver(posts[m..], ContextAfter(context, s, k, m), s, k + m).sent,
                                              Deliver(posts[m..], ContextAfter(context, s, k, m), s, k + m).outcome)
      && Deliver(posts, context, u, 0) == Run(head.sent + Deliver(posts[m..], ContextAfter(context, s, k, m), u, m).sent,
                                              Deliver(posts[m..], ContextAfter(context, s, k, m), u, m).outcome)
      && |head.sent| == m
  {
    ContextSameAnswers(context, s, k, u, 0, m);
    DeliverSplit(posts, context, s, k, m);
    DeliverSplit(posts, context, u, 0, m);
    DeliverSameAnswers(posts[..m], context, s, k, u, 0);
  }

  // ---------------------------------------------------------------------
  // Keys and the store effect of a run
  // ---------------------------------------------------------------------

  const FailedPrefix: string := "failed_post_"

  /** The decimal digits of `n`, as `${n}` writes them. */
  function Decimal(n: nat): (r: string)
    ensures r != []
    ensures forall i :: 0 <= i < |r| ==> '0' <= r[i] <= '9'
  {
    if n < 10 then [(48 + n) as char] else Decimal(n / 10) + [(48 + n % 10) as char]
  }

  /** The number a non-empty string of decimal digits denotes. */
  function ParseDecimal(s: string): nat
    requires s != []
  {
    var d := (s[|s| - 1] as int - 48);
    var v := if |s| == 1 then 0 else ParseDecimal(s[..|s| - 1]) * 10;
    if 0 <= d then v + d else v
  }

  lemma {:induction false} DecimalRoundTrip(n: nat)
    ensures ParseDecimal(Decimal(n)) == n
  {
    if n >= 10 {
      var p := Decimal(n / 10);
      var s := p + [(48 + n % 10) as char];
      assert s[..|s| - 1] == p;
      DecimalRoundTrip(n / 10);
    }
  }

  /** `failed_post_${new Date().getTime()}`, the key of a new failed thread. */
  function FallbackKey(now: nat): (k: string)
    ensures HasPrefix(k, FailedPrefix)
  {
    FailedPrefix + Decimal(now)
  }

  /** Two different timestamps never give the same fallback key. */
  lemma FallbackKeyInjective(a: nat, b: nat)
    requires FallbackKey(a) == FallbackKey(b)
    ensures a == b
  {
    assert Decimal(a) == FallbackKey(a)[|FailedPrefix|..];
    assert Decimal(b) == FallbackKey(b)[|FailedPrefix|..];
    DecimalRoundTrip(a);
    DecimalRoundTrip(b);
  }

  /** `context.retryKey || failed_post_${now}`: where a failed thread is saved. */
  function FailedKey(retryKey: Option<string>, now: nat): (k: string)
    ensures Truthy(retryKey) ==> k == retryKey.value
    ensures !Truthy(retryKey) ==> k == FallbackKey(now)
    ensures k != ""
  {
    if Truthy(retryKey) then retryKey.value else FallbackKey(now)
  }

  /** The record `saveFailedThread` writes: the context's linkage and the parts still to post. */
  function ThreadRecordOf(context: Context, remaining: seq<Post>): Value
  {
    ThreadRecord(context.previousUri, context.previousCid, context.rootUri, context.rootCid, remaining)
  }

  /**
   * The store after a run: a completed run deletes its retry key when it
   * has one; a stopped run writes its record under the failed key.
   */
  function AfterThread(kv: map<string, Value>, retryKey: Option<string>, now: nat, outcome: Outcome): (r: map<string, Value>)
    ensures forall x :: x != FailedKey(retryKey, now) ==> (x in r <==> x in kv)
    ensures forall x :: x != FailedKey(retryKey, now) && x in kv ==> r[x] == kv[x]
    ensures outcome.Completed? && Truthy(retryKey) ==> retryKey.value !in r
    ensures outcome.Completed? && !Truthy(retryKey) ==> r == kv
    ensures outcome.Stopped? ==> FailedKey(retryKey, now) in r
    ensures outcome.Stopped? ==> r[FailedKey(retryKey, now)] == ThreadRecordOf(outcome.context, outcome.remaining)
  {
    match outcome
    case Completed => if Truthy(retryKey) then kv - {retryKey.value} else kv
    case Stopped(remaining, c) => kv[FailedKey(retryKey, now) := ThreadRecordOf(c, remaining)]
  }

  /**
   * What a run does to the store: exactly one key is touched — the retry
   * key, or on a first failure a fresh fallback key. Completing removes the
   * retry record (and without one leaves the store as it was); stopping
   * writes one record holding the failed part, every later part and the
   * context the failed part was sent with.
   */
  lemma ThreadStore(kv: map<string, Value>, posts: seq<Post>, context: Context, service: seq<Response>, calls: nat, now: nat)
    ensures var r := Deliver(posts, context, service, calls);
            var after := AfterThread(kv, context.retryKey, now, r.outcome);
            var key := FailedKey(context.retryKey, now);
      && (forall x :: x != key ==> (x in after <==> x in kv))
      && (forall x :: x != key && x in kv ==> after[x] == kv[x])
      && (r.outcome.Completed? && Truthy(context.retryKey) ==> key !in after)
      && (r.outcome.Completed? && !Truthy(context.retryKey) ==> after == kv)
      && (r.outcome.Stopped? ==>
            && PostedRun(service, calls, |r.sent| - 1)
            && key in after
            && after[key] == ThreadRecordOf(ContextAfter(context, service, calls, |r.sent| - 1), r.outcome.remaining))
  {
    DeliverStops(posts, context, service, calls);
  }
}
