/**
 * The delivery and recovery loop of src/bsky.ts: `postThread` posts a
 * thread part by part against the agent and writes to the KV namespace
 * when it stops or completes; `saveFailedThread` and `saveFailedPost` write
 * the records; `getFailedPosts` and `retryFailedPosts` re-enter `postThread`
 * from the stored thread records; `postToBsky` builds and posts each new item.
 */
module Bsky {
  import opened Wrappers
  import opened Types
  import opened Thread
  import opened Assemble
  import opened Environment
  import opened Build

  /**
   * `saveFailedThread(env, posts, context)`: the record goes under the retry
   * key when there is one, otherwise under `failed_post_<now>`.
   */
  method SaveFailedThread(env: Env, posts: seq<Post>, context: Context, now: nat)
    modifies env`kv
    ensures env.kv == old(env.kv)[FailedKey(context.retryKey, now) := ThreadRecordOf(context, posts)]
  {
    var failedKey := if Truthy(context.retryKey) then context.retryKey.value else FailedPrefix + Decimal(now);
    env.Put(failedKey, ThreadRecord(context.previousUri, context.previousCid, context.rootUri, context.rootCid, posts));
  }

  /** `saveFailedPost(env, item)`: the raw item goes under `failed_post_<id>`. */
  method SaveFailedPost(env: Env, item: FeedItem)
    modifies env`kv
    ensures env.kv == old(env.kv)[FailedPrefix + item.id := RawItem(item)]
  {
    var failedPostKey := FailedPrefix + item.id;
    env.Put(failedPostKey, RawItem(item));
  }

  /**
   * `postThread(agent, posts, env, context)`: what it hands to the agent is
   * the run `Deliver` describes, and the store afterwards is `AfterThread`
   * of that run's outcome. `now` is the clock reading a failure would use.
   */
  method PostThread(agent: Agent, posts: seq<Post>, env: Env, context: Context, now: nat)
    modifies agent`sent, env`kv
    ensures agent.sent == old(agent.sent) + Deliver(posts, context, agent.service, |old(agent.sent)|).sent
    ensures env.kv == AfterThread(old(env.kv), context.retryKey, now, Deliver(posts, context, agent.service, |old(agent.sent)|).outcome)
    decreases |posts|
  {
    if |posts| == 0 {
      if Truthy(context.retryKey) {
        env.Delete(context.retryKey.value);
      }
      return;
    }
    var currentPost, remainingPosts := posts[0], posts[1..];
    var post := CreatePostObject(currentPost, context);
    var response := agent.SendPost(post);
    match response
    case Failed =>
      SaveFailedThread(env, posts, context, now);
    case Posted(uri, cid) =>
      PostThread(agent, remainingPosts, env,
                 Context(uri, cid, Or(context.rootUri, uri), Or(context.rootCid, cid), context.retryKey), now);
  }

  /** A stored key `getFailedPosts` hands to the retry: a thread record with parts left. */
  predicate Pending(kv: map<string, Value>, key: string)
  {
    && key in kv
    && HasPrefix(key, FailedPrefix)
    && kv[key].ThreadRecord?
    && kv[key].remainingParts != []
  }

  /** One entry of `getFailedPosts`: a key and its parsed record. */
  datatype FailedThread = FailedThread(key: string, data: Value)

  /**
   * `getFailedPosts(env)`: every `failed_post_` key whose record has a
   * non-empty `remainingParts`, each once. A raw item saved by
   * `saveFailedPost` has no `remainingParts`, so it is never returned.
   */
  method GetFailedPosts(env: Env) returns (failedPosts: seq<FailedThread>)
    ensures forall i :: 0 <= i < |failedPosts| ==>
      Pending(env.kv, failedPosts[i].key) && failedPosts[i].data == env.kv[failedPosts[i].key]
    ensures forall key :: Pending(env.kv, key) ==> exists i :: 0 <= i < |failedPosts| && failedPosts[i].key == key
    ensures forall i, j :: 0 <= i < j < |failedPosts| ==> failedPosts[i].key != failedPosts[j].key
  {
    var failedPostKeys := env.List(FailedPrefix);
    failedPosts := [];
    ghost var names: seq<string> := [];
    for i := 0 to |failedPostKeys|
      invariant |names| == |failedPosts|
      invariant forall m :: 0 <= m < |failedPosts| ==> names[m] == failedPosts[m].key
      invariant forall m :: 0 <= m < |failedPosts| ==>
        Pending(env.kv, failedPosts[m].key) && failedPosts[m].data == env.kv[failedPosts[m].key]
      invariant forall m :: 0 <= m < |names| ==> names[m] in failedPostKeys[..i]
      invariant forall key :: Pending(env.kv, key) && key in failedPostKeys[..i] ==> key in names
      invariant forall m, n :: 0 <= m < n < |names| ==> names[m] != names[n]
    {
      var name := failedPostKeys[i];
      var data := env.Get(name);
      assert failedPostKeys[..i + 1] == failedPostKeys[..i] + [name];
      if data.Some? && data.value.ThreadRecord? && |data.value.remainingParts| > 0 {
        assert name !in failedPostKeys[..i];
        failedPosts := failedPosts + [FailedThread(name, data.value)];
        names := names + [name];
      }
    }
    assert failedPostKeys[..|failedPostKeys|] == failedPostKeys;
  }

  /** `b` ends with `a`. */
  predicate IsSuffix<T(==)>(a: seq<T>, b: seq<T>)
  {
    |a| <= |b| && b[|b| - |a|..] == a
  }

  /**
   * What a retry sweep may do to one pending key: delete it (the thread was
   * finished) or overwrite it with a record whose parts are a non-empty
   * suffix of the parts it had (the thread stopped again).
   */
  predicate RetriedRecord(before: map<string, Value>, after: map<string, Value>, key: string)
  {
    && key in before
    && before[key].ThreadRecord?
    && (key in after ==>
          && after[key].ThreadRecord?
          && after[key].remainingParts != []
          && IsSuffix(after[key].remainingParts, before[key].remainingParts))
  }

  /** The store and the objects handed to the agent so far. */
  datatype World = World(kv: map<string, Value>, sent: seq<PostObject>)

  /** The keys of a list of failed threads, in order. */
  function Keys(jobs: seq<FailedThread>): (r: seq<string>)
    ensures |r| == |jobs|
    ensures forall m :: 0 <= m < |jobs| ==> r[m] == jobs[m].key
  {
    if jobs == [] then [] else [jobs[0].key] + Keys(jobs[1..])
  }

  /** Entries that can be resumed: a non-empty key and a thread record. */
  predicate Resumable(jobs: seq<FailedThread>)
  {
    forall m :: 0 <= m < |jobs| ==> jobs[m].key != "" && jobs[m].data.ThreadRecord?
  }

  /** The entries `getFailedPosts` returns for `kv`: every pending key once, with its record. */
  ghost predicate Listed(kv: map<string, Value>, jobs: seq<FailedThread>)
  {
    && (forall m :: 0 <= m < |jobs| ==> Pending(kv, jobs[m].key) && jobs[m].data == kv[jobs[m].key])
    && (forall key :: Pending(kv, key) ==> key in Keys(jobs))
    && (forall m, n :: 0 <= m < n < |jobs| ==> jobs[m].key != jobs[n].key)
  }

  /** The context a stored record is resumed with: its linkage, and its own key as retry key. */
  function RetryContext(job: FailedThread): (c: Context)
    requires job.data.ThreadRecord?
    ensures c.retryKey == Some(job.key)
    ensures ThreadRecordOf(c, job.data.remainingParts) == job.data
  {
    Context(job.data.previousUri, job.data.previousCid, job.data.rootUri, job.data.rootCid, Some(job.key))
  }

  /** The run one retry makes, from a world that has sent `w.sent`. */
  function RetryRun(w: World, job: FailedThread, service: seq<Response>): Run
    requires job.data.ThreadRecord?
  {
    Deliver(job.data.remainingParts, RetryContext(job), service, |w.sent|)
  }

  /** One pass of the retry loop: the record's run is sent and its outcome written under its key. */
  function RetryStep(w: World, job: FailedThread, service: seq<Response>, now: nat): World
    requires job.data.ThreadRecord?
  {
    var run := RetryRun(w, job, service);
    World(AfterThread(w.kv, Some(job.key), now, run.outcome), w.sent + run.sent)
  }

  /** The retry loop over `jobs`, in order. */
  function Sweep(w: World, jobs: seq<FailedThread>, service: seq<Response>, now: nat): World
    requires Resumable(jobs)
    decreases |jobs|
  {
    if jobs == [] then w
    else RetryStep(Sweep(w, jobs[..|jobs| - 1], service, now), jobs[|jobs| - 1], service, now)
  }

  /**
   * `retryFailedPosts(env)`: the pending records are listed (in the order
   * the store lists them, `jobs`) and each is re-entered through
   * `postThread` from its own linkage with its key as retry key. So no key
   * is created, every key that was not pending is left as it was, and each
   * pending key is deleted or overwritten with a non-empty suffix of its parts.
   */
  method RetryFailedPosts(agent: Agent, env: Env, now: nat) returns (ghost jobs: seq<FailedThread>)
    modifies agent`sent, env`kv
    ensures Listed(old(env.kv), jobs) && Resumable(jobs)
    ensures World(env.kv, agent.sent) == Sweep(World(old(env.kv), old(agent.sent)), jobs, agent.service, now)
    ensures forall key :: key in env.kv ==> key in old(env.kv)
    ensures forall key :: key in old(env.kv) && !Pending(old(env.kv), key) ==> key in env.kv && env.kv[key] == old(env.kv)[key]
    ensures forall key :: Pending(old(env.kv), key) ==> RetriedRecord(old(env.kv), env.kv, key)
    ensures Extends(old(agent.sent), agent.sent)
  {
    var failedPosts := GetFailedPosts(env);
    jobs := failedPosts;
    ghost var w := World(env.kv, agent.sent);
    assert Listed(env.kv, jobs) by {
      forall key | Pending(env.kv, key)
        ensures key in Keys(jobs)
      {
        var m :| 0 <= m < |failedPosts| && failedPosts[m].key == key;
        assert Keys(jobs)[m] == key;
      }
    }
    ListedResumable(env.kv, jobs);
    if |failedPosts| == 0 {
      SweepSwept(w, jobs, agent.service, now);
      return;
    }
    RetryAll(agent, env, failedPosts, now);
    SweepSwept(w, jobs, agent.service, now);
  }

  /** Listed entries can be resumed. */
  lemma ListedResumable(kv: map<string, Value>, jobs: seq<FailedThread>)
    requires Listed(kv, jobs)
    ensures Resumable(jobs)
  {
    forall m | 0 <= m < |jobs|
      ensures jobs[m].key != "" && jobs[m].data.ThreadRecord?
    {
      assert Pending(kv, jobs[m].key);
      assert |jobs[m].key| >= |FailedPrefix|;
    }
  }

  /** The loop of `retryFailedPosts`: one retry per entry, in order, each from the entry's own record. */
  method RetryAll(agent: Agent, env: Env, jobs: seq<FailedThread>, now: nat)
    requires Resumable(jobs)
    modifies agent`sent, env`kv
    ensures World(env.kv, agent.sent) == Sweep(World(old(env.kv), old(agent.sent)), jobs, agent.service, now)
  {
    for i := 0 to |jobs|
      invariant World(env.kv, agent.sent) == Sweep(World(old(env.kv), old(agent.sent)), jobs[..i], agent.service, now)
    {
      assert jobs[..i + 1][..i] == jobs[..i];
      RetryOne(agent, env, jobs[i], now);
    }
    assert jobs[..|jobs|] == jobs;
  }

  /**
   * One pass of the retry loop: `postThread` on the record's parts, from its
   * linkage, with its key as retry key.
   */
  method RetryOne(agent: Agent, env: Env, job: FailedThread, now: nat)
    requires job.data.ThreadRecord?
    modifies agent`sent, env`kv
    ensures World(env.kv, agent.sent) == RetryStep(World(old(env.kv), old(agent.sent)), job, agent.service, now)
  {
    var context := Context(job.data.previousUri, job.data.previousCid, job.data.rootUri, job.data.rootCid, Some(job.key));
    PostThread(agent, job.data.remainingParts, env, context, now);
  }

  /** A retry touches only its own key. */
  lemma RetryStepOthers(w: World, job: FailedThread, service: seq<Response>, now: nat, key: string)
    requires job.data.ThreadRecord? && job.key != "" && key != job.key
    ensures var after := RetryStep(w, job, service, now).kv;
      (key in after <==> key in w.kv) && (key in after ==> after[key] == w.kv[key])
  {
  }

  /** The sweep leaves every key it does not retry as it was. */
  lemma {:induction false} SweepOthers(w: World, jobs: seq<FailedThread>, service: seq<Response>, now: nat, key: string)
    requires Resumable(jobs) && key !in Keys(jobs)
    ensures var after := Sweep(w, jobs, service, now).kv;
      (key in after <==> key in w.kv) && (key in after ==> after[key] == w.kv[key])
    decreases |jobs|
  {
    if jobs != [] {
      var n := |jobs| - 1;
      assert Keys(jobs[..n]) == Keys(jobs)[..n];
      SweepOthers(w, jobs[..n], service, now, key);
      assert Keys(jobs)[n] == jobs[n].key;
      RetryStepOthers(Sweep(w, jobs[..n], service, now), jobs[n], service, now, key);
    }
  }

  /** The sweep only appends to what was sent. */
  lemma {:induction false} SweepExtends(w: World, jobs: seq<FailedThread>, service: seq<Response>, now: nat)
    requires Resumable(jobs)
    ensures Extends(w.sent, Sweep(w, jobs, service, now).sent)
    decreases |jobs|
  {
    if jobs != [] {
      var n := |jobs| - 1;
      SweepExtends(w, jobs[..n], service, now);
      var mid := Sweep(w, jobs[..n], service, now).sent;
      var run := RetryRun(Sweep(w, jobs[..n], service, now), jobs[n], service);
      assert (mid + run.sent)[..|w.sent|] == mid[..|w.sent|];
    }
  }

  /**
   * Each retried key ends as its own run left it: deleted exactly when the
   * run of its record completed, otherwise holding the part that failed,
   * every later part and the context that part was sent with.
   */
  lemma {:induction false} SweepEffect(w: World, jobs: seq<FailedThread>, service: seq<Response>, now: nat, m: nat)
    requires Resumable(jobs) && m < |jobs|
    requires forall i, j :: 0 <= i < j < |jobs| ==> jobs[i].key != jobs[j].key
    ensures var run := RetryRun(Sweep(w, jobs[..m], service, now), jobs[m], service);
            var after := Sweep(w, jobs, service, now).kv;
      && (run.outcome.Completed? ==> jobs[m].key !in after)
      && (run.outcome.Stopped? ==>
            jobs[m].key in after && after[jobs[m].key] == ThreadRecordOf(run.outcome.context, run.outcome.remaining))
    decreases |jobs|
  {
    var n := |jobs| - 1;
    if m < n {
      assert jobs[..n][..m] == jobs[..m];
      SweepEffect(w, jobs[..n], service, now, m);
      RetryStepOthers(Sweep(w, jobs[..n], service, now), jobs[n], service, now, jobs[m].key);
    } else {
      var run := RetryRun(Sweep(w, jobs[..m], service, now), jobs[m], service);
      DeliverShape(jobs[m].data.remainingParts, RetryContext(jobs[m]), service, |Sweep(w, jobs[..m], service, now).sent|);
      assert Truthy(Some(jobs[m].key));
    }
  }

  /**
   * The sweep over the listed records of `w.kv` is a retry of every pending
   * key that touches no other key.
   */
  lemma SweepSwept(w: World, jobs: seq<FailedThread>, service: seq<Response>, now: nat)
    requires Listed(w.kv, jobs) && Resumable(jobs)
    ensures Swept(w.kv, Sweep(w, jobs, service, now).kv, Keys(jobs))
    ensures Extends(w.sent, Sweep(w, jobs, service, now).sent)
  {
    var after := Sweep(w, jobs, service, now).kv;
    SweepExtends(w, jobs, service, now);
    forall key | key !in Keys(jobs)
      ensures (key in after <==> key in w.kv) && (key in after ==> after[key] == w.kv[key])
    {
      SweepOthers(w, jobs, service, now, key);
    }
    forall m | 0 <= m < |jobs|
      ensures RetriedRecord(w.kv, after, jobs[m].key)
    {
      RetriedOne(w, jobs, service, now, m);
    }
    forall key | key in Keys(jobs)
      ensures RetriedRecord(w.kv, after, key)
    {
      var m :| 0 <= m < |jobs| && Keys(jobs)[m] == key;
    }
  }

  /** One listed key after the sweep: its record was retried. */
  lemma RetriedOne(w: World, jobs: seq<FailedThread>, service: seq<Response>, now: nat, m: nat)
    requires Listed(w.kv, jobs) && Resumable(jobs) && m < |jobs|
    ensures RetriedRecord(w.kv, Sweep(w, jobs, service, now).kv, jobs[m].key)
  {
    var job := jobs[m];
    var before := Sweep(w, jobs[..m], service, now);
    var run := RetryRun(before, job, service);
    SweepEffect(w, jobs, service, now, m);
    DeliverShape(job.data.remainingParts, RetryContext(job), service, |before.sent|);
    if run.outcome.Stopped? {
      var parts := job.data.remainingParts;
      assert run.outcome.remaining == parts[|run.sent| - 1..];
    }
  }

  /**
   * The store after retrying the keys `done`: no key was created, every
   * other key is as it was, and each key of `done` was retried.
   */
  ghost predicate Swept(before: map<string, Value>, after: map<string, Value>, done: seq<string>)
  {
    && (forall key :: key in after ==> key in before)
    && (forall key :: key in before && key !in done ==> key in after && after[key] == before[key])
    && (forall key :: key in done ==> RetriedRecord(before, after, key))
  }

  /** The clock readings of one item: the ISO date for `createdAt` and the milliseconds for a fallback key. */
  datatype Clock = Clock(iso: string, millis: nat)

  /** The store only gained or rewrote `failed_post_` keys: no key was removed and every other key is as it was. */
  ghost predicate OnlyFailedWrites(before: map<string, Value>, after: map<string, Value>)
  {
    && (forall key :: key in before ==> key in after)
    && (forall key :: !HasPrefix(key, FailedPrefix) ==>
          (key in after <==> key in before) && (key in after ==> after[key] == before[key]))
  }

  /** `sent` was only appended to. */
  predicate Extends<T(==)>(before: seq<T>, after: seq<T>)
  {
    |before| <= |after| && after[..|before|] == before
  }

  /**
   * One pass of the `postToBsky` loop, given what building the item gave:
   * a build that threw saves the raw item; a thread is posted as a fresh
   * thread, with the clock's milliseconds for a fallback key.
   */
  function ItemStep(w: World, item: FeedItem, thread: Option<seq<Post>>, service: seq<Response>, millis: nat): World
  {
    match thread
    case None => World(w.kv[FailedPrefix + item.id := RawItem(item)], w.sent)
    case Some(parts) =>
      var run := Deliver(parts, EmptyContext, service, |w.sent|);
      World(AfterThread(w.kv, None, millis, run.outcome), w.sent + run.sent)
  }

  /** The `postToBsky` loop: every item in order, whatever happened to the ones before it. */
  function Publish(w: World, items: seq<FeedItem>, threads: seq<Option<seq<Post>>>, clocks: seq<Clock>, service: seq<Response>): World
    requires |threads| == |items| && |clocks| == |items|
    decreases |items|
  {
    if items == [] then w
    else
      var n := |items| - 1;
      ItemStep(Publish(w, items[..n], threads[..n], clocks[..n], service), items[n], threads[n], service, clocks[n].millis)
  }

  /**
   * One pass of the `postToBsky` loop: the item is built; a build that
   * throws saves the raw item, otherwise its parts are posted as a fresh
   * thread (no retry key, so nothing is ever deleted). `thread` is what the
   * build gave.
   */
  method PostItem(agent: Agent, item: FeedItem, env: Env, clock: Clock) returns (ghost thread: Option<seq<Post>>)
    modifies agent`sent, agent`uploadCalls, env`kv
    ensures Built(item, clock.iso, thread, agent.uploads, old(agent.uploadCalls), agent.uploadCalls)
    ensures World(env.kv, agent.sent) == ItemStep(World(old(env.kv), old(agent.sent)), item, thread, agent.service, clock.millis)
    ensures OnlyFailedWrites(old(env.kv), env.kv)
    ensures Extends(old(agent.sent), agent.sent)
  {
    var post := BuildPost(agent, item, clock.iso);
    thread := post;
    ghost var w := World(env.kv, agent.sent);
    match post
    case None =>
      SaveFailedPost(env, item);
    case Some(parts) =>
      PostThread(agent, parts, env, EmptyContext, clock.millis);
    ItemStepWrites(w, item, thread, agent.service, clock.millis);
  }

  /** Writing one `failed_post_` key is such a write. */
  lemma FailedWrite(kv: map<string, Value>, key: string, value: Value)
    requires HasPrefix(key, FailedPrefix)
    ensures OnlyFailedWrites(kv, kv[key := value])
  {
  }

  /** A thread posted without a retry key writes at most its fallback key and deletes nothing. */
  lemma FreshThreadWrites(kv: map<string, Value>, now: nat, outcome: Outcome)
    ensures OnlyFailedWrites(kv, AfterThread(kv, None, now, outcome))
  {
    if outcome.Stopped? {
      FailedWrite(kv, FallbackKey(now), ThreadRecordOf(outcome.context, outcome.remaining));
    }
  }

  /** One item writes only `failed_post_` keys, deletes nothing, and only appends to what was sent. */
  lemma ItemStepWrites(w: World, item: FeedItem, thread: Option<seq<Post>>, service: seq<Response>, millis: nat)
    ensures OnlyFailedWrites(w.kv, ItemStep(w, item, thread, service, millis).kv)
    ensures Extends(w.sent, ItemStep(w, item, thread, service, millis).sent)
  {
    match thread
    case None =>
      assert HasPrefix(FailedPrefix + item.id, FailedPrefix);
      FailedWrite(w.kv, FailedPrefix + item.id, RawItem(item));
    case Some(parts) =>
      var run := Deliver(parts, EmptyContext, service, |w.sent|);
      FreshThreadWrites(w.kv, millis, run.outcome);
      assert (w.sent + run.sent)[..|w.sent|] == w.sent;
  }

  /** Over all items, only `failed_post_` keys are written, none is deleted, and sends are only appended. */
  lemma {:induction false} PublishWrites(w: World, items: seq<FeedItem>, threads: seq<Option<seq<Post>>>, clocks: seq<Clock>, service: seq<Response>)
    requires |threads| == |items| && |clocks| == |items|
    ensures OnlyFailedWrites(w.kv, Publish(w, items, threads, clocks, service).kv)
    ensures Extends(w.sent, Publish(w, items, threads, clocks, service).sent)
    decreases |items|
  {
    if items != [] {
      var n := |items| - 1;
      var mid := Publish(w, items[..n], threads[..n], clocks[..n], service);
      PublishWrites(w, items[..n], threads[..n], clocks[..n], service);
      ItemStepWrites(mid, items[n], threads[n], service, clocks[n].millis);
      var last := ItemStep(mid, items[n], threads[n], service, clocks[n].millis);
      assert last.sent[..|w.sent|] == mid.sent[..|w.sent|] by {
        assert last.sent[..|mid.sent|] == mid.sent;
      }
    }
  }

  /**
   * The loop carries on after every item: posting `a + b` is posting `a`,
   * then posting `b` from the world `a` left.
   */
  lemma {:induction false} PublishAppend(w: World, a: seq<FeedItem>, b: seq<FeedItem>,
                                         ta: seq<Option<seq<Post>>>, tb: seq<Option<seq<Post>>>,
                                         ca: seq<Clock>, cb: seq<Clock>, service: seq<Response>)
    requires |ta| == |a| && |ca| == |a| && |tb| == |b| && |cb| == |b|
    ensures Publish(w, a + b, ta + tb, ca + cb, service) == Publish(Publish(w, a, ta, ca, service), b, tb, cb, service)
    decreases |b|
  {
    if b == [] {
      assert a + b == a && ta + tb == ta && ca + cb == ca;
    } else {
      var n := |b| - 1;
      var m := |a| + n;
      AppendInit(a, b, n, m);
      AppendInit(ta, tb, n, m);
      AppendInit(ca, cb, n, m);
      PublishLast(w, a + b, ta + tb, ca + cb, service, m);
      PublishAppend(w, a, b[..n], ta, tb[..n], ca, cb[..n], service);
      PublishLast(Publish(w, a, ta, ca, service), b, tb, cb, service, n);
    }
  }

  /** Dropping the last element of `a + b`, for a non-empty `b`. */
  lemma AppendInit<T>(a: seq<T>, b: seq<T>, n: nat, m: nat)
    requires n + 1 == |b| && m == |a| + n
    ensures (a + b)[..m] == a + b[..n] && (a + b)[m] == b[n]
  {
  }

  /** The loop's last pass over a non-empty list. */
  lemma PublishLast(w: World, items: seq<FeedItem>, threads: seq<Option<seq<Post>>>, clocks: seq<Clock>,
                    service: seq<Response>, n: nat)
    requires |threads| == |items| && |clocks| == |items| && n + 1 == |items|
    ensures Publish(w, items, threads, clocks, service)
         == ItemStep(Publish(w, items[..n], threads[..n], clocks[..n], service), items[n], threads[n], service, clocks[n].millis)
  {
  }

  /** Posting one item more: the loop's next pass, after the ones before it. */
  lemma PublishSnoc(w: World, items: seq<FeedItem>, threads: seq<Option<seq<Post>>>, clocks: seq<Clock>,
                    thread: Option<seq<Post>>, service: seq<Response>, i: nat)
    requires i < |items| && |clocks| == |items| && |threads| == i
    ensures Publish(w, items[..i + 1], threads + [thread], clocks[..i + 1], service)
         == ItemStep(Publish(w, items[..i], threads, clocks[..i], service), items[i], thread, service, clocks[i].millis)
  {
    assert items[..i + 1][..i] == items[..i];
    assert clocks[..i + 1][..i] == clocks[..i];
    assert (threads + [thread])[..i] == threads;
  }

  /** Item `k` was built as `threads[k]`, with upload calls `marks[k] .. marks[k + 1] - 1`, for every `k < n`. */
  ghost predicate BuiltEach(items: seq<FeedItem>, clocks: seq<Clock>, threads: seq<Option<seq<Post>>>,
                            marks: seq<nat>, uploads: seq<Option<Blob>>, n: nat)
    requires n <= |items| && |clocks| == |items| && |threads| == n && |marks| == n + 1
  {
    forall k :: 0 <= k < n ==> Built(items[k], clocks[k].iso, threads[k], uploads, marks[k], marks[k + 1])
  }

  /**
   * `postToBsky(items, env)`: each item is built and posted as a fresh
   * thread, or saved raw when its build throws, and the loop goes on with
   * the next item either way. `threads[i]` is what building item `i` gave,
   * using upload calls `marks[i] .. marks[i + 1] - 1`.
   */
  method PostToBsky(agent: Agent, items: seq<FeedItem>, env: Env, clocks: seq<Clock>)
    returns (ghost threads: seq<Option<seq<Post>>>, ghost marks: seq<nat>)
    requires |clocks| == |items|
    modifies agent`sent, agent`uploadCalls, env`kv
    ensures |threads| == |items| && |marks| == |items| + 1
    ensures marks[0] == old(agent.uploadCalls) && marks[|items|] == agent.uploadCalls
    ensures forall i :: 0 <= i < |items| ==> Built(items[i], clocks[i].iso, threads[i], agent.uploads, marks[i], marks[i + 1])
    ensures World(env.kv, agent.sent) == Publish(World(old(env.kv), old(agent.sent)), items, threads, clocks, agent.service)
    ensures OnlyFailedWrites(old(env.kv), env.kv)
    ensures Extends(old(agent.sent), agent.sent)
  {
    ghost var w := World(env.kv, agent.sent);
    threads, marks := [], [agent.uploadCalls];
    for i := 0 to |items|
      invariant |threads| == i && |marks| == i + 1
      invariant marks[0] == old(agent.uploadCalls) && marks[i] == agent.uploadCalls
      invariant BuiltEach(items, clocks, threads, marks, agent.uploads, i)
      invariant World(env.kv, agent.sent) == Publish(w, items[..i], threads, clocks[..i], agent.service)
    {
      var thread := PostItem(agent, items[i], env, clocks[i]);
      PublishSnoc(w, items, threads, clocks, thread, agent.service, i);
      threads, marks := threads + [thread], marks + [agent.uploadCalls];
    }
    assert items[..|items|] == items && clocks[..|items|] == clocks;
    PublishWrites(w, items, threads, clocks, agent.service);
  }
}
