/**
 * The scheduled handler of src/index.ts: `handleCron` compares the feed's
 * current items with the list stored under `last_items`, posts the items
 * whose id it has not seen, and stores the current list; `scheduled` runs
 * it and then the retry sweep. Fetching and parsing the feed is outside the
 * model: the current items are a parameter.
 */
module Cron {
  import opened Wrappers
  import opened Types
  import opened Thread
  import opened Environment
  import opened Build
  import opened Bsky

  /** The store key of the last list of items seen. */
  const LastItemsKey: string := "last_items"

  /** The ids of a list of items, in order. */
  function Ids(items: seq<FeedItem>): (r: seq<string>)
    ensures |r| == |items|
    ensures forall i :: 0 <= i < |items| ==> r[i] == items[i].id
  {
    if items == [] then [] else [items[0].id] + Ids(items[1..])
  }

  /** `Array.isArray(lastItems) ? lastItems.map(item => item.id) : []`. */
  function LastIds(lastItems: Value): (r: seq<string>)
    ensures lastItems.ItemList? ==> |r| == |lastItems.items|
    ensures lastItems.ItemList? ==> forall i :: 0 <= i < |r| ==> r[i] == lastItems.items[i].id
    ensures !lastItems.ItemList? ==> r == []
  {
    if lastItems.ItemList? then Ids(lastItems.items) else []
  }

  /** `currentItems.filter(item => !lastItemIds.includes(item.id))`. */
  function NewItems(currentItems: seq<FeedItem>, lastItemIds: seq<string>): (r: seq<FeedItem>)
    ensures |r| <= |currentItems|
    ensures forall k :: 0 <= k < |r| ==> r[k].id !in lastItemIds
  {
    if currentItems == [] then []
    else if currentItems[0].id in lastItemIds then NewItems(currentItems[1..], lastItemIds)
    else [currentItems[0]] + NewItems(currentItems[1..], lastItemIds)
  }

  /** An item is new exactly when it is current and its id was not seen. */
  lemma {:induction false} NewItemsMembers(currentItems: seq<FeedItem>, lastItemIds: seq<string>, item: FeedItem)
    ensures item in NewItems(currentItems, lastItemIds) <==> item in currentItems && item.id !in lastItemIds
  {
    if currentItems != [] {
      NewItemsMembers(currentItems[1..], lastItemIds, item);
      assert currentItems == [currentItems[0]] + currentItems[1..];
    }
  }

  /** The filter keeps the feed's order: filtering two lists one after the other is filtering their concatenation. */
  lemma {:induction false} NewItemsAppend(a: seq<FeedItem>, b: seq<FeedItem>, lastItemIds: seq<string>)
    ensures NewItems(a + b, lastItemIds) == NewItems(a, lastItemIds) + NewItems(b, lastItemIds)
  {
    if a == [] {
      assert a + b == b;
    } else {
      assert (a + b)[1..] == a[1..] + b;
      NewItemsAppend(a[1..], b, lastItemIds);
    }
  }

  /** Filtering twice by the same ids changes nothing. */
  lemma {:induction false} NewItemsIdempotent(currentItems: seq<FeedItem>, lastItemIds: seq<string>)
    ensures NewItems(NewItems(currentItems, lastItemIds), lastItemIds) == NewItems(currentItems, lastItemIds)
  {
    if currentItems != [] {
      NewItemsIdempotent(currentItems[1..], lastItemIds);
      if currentItems[0].id !in lastItemIds {
        var rest := NewItems(currentItems[1..], lastItemIds);
        assert ([currentItems[0]] + rest)[1..] == rest;
      }
    }
  }

  /** When every current id was seen, nothing is new. */
  lemma {:induction false} NewItemsAllSeen(currentItems: seq<FeedItem>, lastItemIds: seq<string>)
    requires forall i :: 0 <= i < |currentItems| ==> currentItems[i].id in lastItemIds
    ensures NewItems(currentItems, lastItemIds) == []
  {
    if currentItems != [] {
      NewItemsAllSeen(currentItems[1..], lastItemIds);
    }
  }

  /** Once the current list is stored, the same feed has no new items. */
  lemma NewItemsSeen(currentItems: seq<FeedItem>)
    ensures NewItems(currentItems, LastIds(ItemList(currentItems))) == []
  {
    var ids := Ids(currentItems);
    assert forall i :: 0 <= i < |currentItems| ==> currentItems[i].id in ids by {
      forall i | 0 <= i < |currentItems|
        ensures currentItems[i].id in ids
      {
        assert ids[i] == currentItems[i].id;
      }
    }
    NewItemsAllSeen(currentItems, ids);
  }

  /** The value stored under `last_items`, if any. */
  function Stored(kv: map<string, Value>): Option<Value>
  {
    if LastItemsKey in kv then Some(kv[LastItemsKey]) else None
  }

  /**
   * What one `handleCron` pass does, from `before` to `after`, given what
   * building each new item gave (`threads`) and the upload calls each build
   * used (`marks`). Without a truthy `last_items` the current list is stored
   * and nothing is posted. Otherwise the new items are posted in order as
   * `postToBsky` does, and, when there were any, `last_items` is then set
   * to the current list.
   */
  ghost predicate CronPass(before: World, after: World, currentItems: seq<FeedItem>, clocks: seq<Clock>,
                           threads: seq<Option<seq<Post>>>, marks: seq<nat>, uploads: seq<Option<Blob>>, service: seq<Response>)
    requires |clocks| == |currentItems|
  {
    var stored := Stored(before.kv);
    if !TruthyValue(stored) then
      (&& after == World(before.kv[LastItemsKey := ItemList(currentItems)], before.sent)
       && threads == [] && |marks| == 1)
    else
      var newItems := NewItems(currentItems, LastIds(stored.value));
      (&& |threads| == |newItems| && |marks| == |newItems| + 1
       && (forall i :: 0 <= i < |newItems| ==> Built(newItems[i], clocks[i].iso, threads[i], uploads, marks[i], marks[i + 1]))
       && after == if newItems == [] then before else
            var posted := Publish(before, newItems, threads, clocks[..|newItems|], service);
            World(posted.kv[LastItemsKey := ItemList(currentItems)], posted.sent))
  }

  /**
   * `handleCron(env)` on the feed's current items. A store without a truthy
   * `last_items` is seeded with the current list, which makes every item
   * already seen, so the first run posts nothing. Otherwise the new items
   * are posted, and the list is overwritten only when there were any.
   * `clocks` holds one clock reading per current item; `threads` and
   * `marks` are what the builds of the new items gave and used.
   */
  method HandleCron(agent: Agent, env: Env, currentItems: seq<FeedItem>, clocks: seq<Clock>)
    returns (ghost threads: seq<Option<seq<Post>>>, ghost marks: seq<nat>)
    requires |clocks| == |currentItems|
    modifies agent`sent, agent`uploadCalls, env`kv
    ensures CronPass(World(old(env.kv), old(agent.sent)), World(env.kv, agent.sent), currentItems, clocks,
                     threads, marks, agent.uploads, agent.service)
    ensures |marks| >= 1 && marks[0] == old(agent.uploadCalls) && marks[|marks| - 1] == agent.uploadCalls
    ensures var stored := Stored(old(env.kv));
      && (!TruthyValue(stored) ==> env.kv == old(env.kv)[LastItemsKey := ItemList(currentItems)] && agent.sent == old(agent.sent))
      && (TruthyValue(stored) && NewItems(currentItems, LastIds(stored.value)) == [] ==>
            env.kv == old(env.kv) && agent.sent == old(agent.sent))
      && (TruthyValue(stored) && NewItems(currentItems, LastIds(stored.value)) != [] ==>
            && LastItemsKey in env.kv && env.kv[LastItemsKey] == ItemList(currentItems)
            && OnlyFailedWrites(old(env.kv), env.kv[LastItemsKey := old(env.kv)[LastItemsKey]]))
    ensures Extends(old(agent.sent), agent.sent)
  {
    threads, marks := [], [agent.uploadCalls];
    var lastItems := env.Get(LastItemsKey);
    if !TruthyValue(lastItems) {
      env.Put(LastItemsKey, ItemList(currentItems));
      return;
    }
    var lastItemIds := LastIds(lastItems.value);
    var newItems := NewItems(currentItems, lastItemIds);
    if |newItems| > 0 {
      ghost var before := env.kv;
      threads, marks := PostToBsky(agent, newItems, env, clocks[..|newItems|]);
      ghost var posted := env.kv;
      env.Put(LastItemsKey, ItemList(currentItems));
      LastItemsRestored(before, posted, ItemList(currentItems));
    }
  }

  /** Putting `last_items` back to its old value after `failed_post_` writes leaves only those writes. */
  lemma LastItemsRestored(before: map<string, Value>, posted: map<string, Value>, list: Value)
    requires LastItemsKey in before
    requires OnlyFailedWrites(before, posted)
    ensures OnlyFailedWrites(before, posted[LastItemsKey := list][LastItemsKey := before[LastItemsKey]])
  {
    var after := posted[LastItemsKey := list][LastItemsKey := before[LastItemsKey]];
    assert !HasPrefix(LastItemsKey, FailedPrefix);
    assert after == posted;
  }

  /**
   * `scheduled(event, env, ctx)`: the cron pass on the current feed, then
   * the retry sweep over the records the store holds after it (`cron` is
   * the world between the two, `jobs` the records the sweep lists). Every
   * key that neither pass may write is left as it was.
   */
  method Scheduled(agent: Agent, env: Env, currentItems: seq<FeedItem>, clocks: seq<Clock>, now: nat)
    returns (ghost cron: World, ghost threads: seq<Option<seq<Post>>>, ghost marks: seq<nat>, ghost jobs: seq<FailedThread>)
    requires |clocks| == |currentItems|
    modifies agent`sent, agent`uploadCalls, env`kv
    ensures CronPass(World(old(env.kv), old(agent.sent)), cron, currentItems, clocks, threads, marks, agent.uploads, agent.service)
    ensures Listed(cron.kv, jobs) && Resumable(jobs)
    ensures World(env.kv, agent.sent) == Sweep(cron, jobs, agent.service, now)
    ensures forall key :: key != LastItemsKey && !HasPrefix(key, FailedPrefix) ==>
      (key in env.kv <==> key in old(env.kv)) && (key in env.kv ==> env.kv[key] == old(env.kv)[key])
    ensures Extends(old(agent.sent), agent.sent)
  {
    threads, marks := HandleCron(agent, env, currentItems, clocks);
    cron := World(env.kv, agent.sent);
    jobs := RetryFailedPosts(agent, env, now);
    assert agent.sent[..|cron.sent|] == cron.sent;
  }
}
