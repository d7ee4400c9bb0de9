# rss2bsky in Dafny

rss2bsky is a scheduled Cloudflare Worker that carries new items of an RSS
feed over to Bluesky. On each run (`scheduled`) it:

- compares the feed's current items with the list stored under
  `last_items` in the Workers KV namespace;
- builds each new item into a thread of posts. The description is cleaned
  of CDATA markers, tags and newlines and cut into parts of at most 300
  UTF-16 units. The images named in its `<img src="…">` tags are uploaded
  and attached four per part;
- posts each thread part by part, each part replying to the first part
  (the root) and to the part before it (the parent);
- when a part fails, saves the failed part, every later part and the
  linkage context under a `failed_post_…` key;
- resumes every such thread record on the same run, after the cron pass.

The project models that core as Dafny:

- `split.dfy`: the text splitter and `chunkArray`, as loops proved against
  a declarative specification of the greedy split.
- `html.dfy`: the regular-expression work of `extractImageUrls`,
  `stripTags` and `buildDescription`, including JavaScript's `trim`.
- `assemble.dfy`: the recursive `helper` of `buildPost` that zips text
  parts with image groups.
- `thread.dfy`: `createPostObject` and `Deliver`, a value-level account of
  what `postThread` sends and where it stops. Also the keys and the store
  effect of a run.
- `env.dfy`: the two outside objects as classes. The KV namespace is a map
  field updated in place. The logged-in agent has scripted answers: call
  `n` of `post` gets answer `n` of `service`, call `n` of `uploadBlob` gets
  answer `n` of `uploads`, and a missing or failed answer means the call
  throws.
- `build.dfy`: `uploadImagesToBluesky` and `buildPost` as methods on the
  agent.
- `bsky.dfy`: `postThread`, `saveFailedThread`, `saveFailedPost`,
  `getFailedPosts`, `retryFailedPosts` and `postToBsky` as methods on the
  agent and the store, proved against the functions of `thread.dfy`.
- `cron.dfy`: `handleCron` and `scheduled`.

The model follows the code, including where its behaviour is easy to
misread:

- A raw item written by `saveFailedPost` (src/bsky.ts:110-113) is never
  retried. `getFailedPosts` (src/bsky.ts:126-138) keeps only records whose
  `remainingParts` is non-empty, so `RetryFailedPosts` leaves such keys
  untouched.
- A thread whose retry completes has its key deleted. A thread that never
  failed writes nothing.

## Model

| member | source | states |
|---|---|---|
| Types.Or | src/bsky.ts:53-54 | `a \|\| b` on optional strings: `a` when it is a non-empty string, otherwise `b` |
| Split.CharLen | src/utils.ts:30-31 | a code point counts as one UTF-16 unit exactly when it is in the Basic Multilingual Plane, otherwise as two |
| Split.SplitTextIntoParts | src/utils.ts:26-43 | the loop's result is a greedy split: the parts concatenate to the text in order; each fits in `maxLength` units unless it is one over-long code point (or an empty first part); a part is closed only when the next code point would not fit; only the first part may be empty and the last is not |
| Split.SplitUnique | src/utils.ts:26-43 | the greedy split of a text is unique, so the specification determines the loop's output |
| Split.SplitEmpty | src/utils.ts:38-42 | the empty text splits into no parts |
| Split.SplitShort | test/buildpost.test.ts:32-38 | a non-empty text that fits in `maxLength` units is returned as its only part |
| Split.SplitCharsFromText | src/utils.ts:30-36 | every character of every part is a character of the text |
| Split.SplitBounded | src/utils.ts:31-35 | when no single code point exceeds `maxLength` units, no part does either |
| Split.SplitDefaultParts | src/utils.ts:26-43 | with `maxLength >= 2` every part is non-empty and at most `maxLength` units long |
| Split.SplitBmpSizes | src/utils.ts:26-43 | for text in the Basic Multilingual Plane every part but the last has exactly `maxLength` characters and the last has between 1 and `maxLength` |
| Split.SplitTwoParts | test/buildpost.test.ts:21-30 | a BMP text longer than `maxLength` and at most twice as long splits into its first `maxLength` characters and the rest |
| Split.ChunkArray | src/utils.ts:45-51 | the chunks concatenate to the input; each holds 1 to `chunkSize` elements; all but the last hold exactly `chunkSize`; their number is the ceiling of the length divided by `chunkSize` |
| Split.ChunkFiveByFour | src/utils.ts:107 | five images grouped by four give the first four and then the fifth |
| Html.SrcValueEnd | src/utils.ts:60 | the `src="([^">]+)"` tail matches at `j` only when `src="`, a non-empty run free of `"` and `>`, and a closing `"` follow, and gives the quote's index |
| Html.LastSrc | src/utils.ts:60 | the backtracking of `[^>]+` picks the last position in the range where the `src` tail matches, and none exists when it gives `None` |
| Html.MatchAt | src/utils.ts:60-62 | a match at `p` starts with `<img`, captures a non-empty URL free of `"` and `>`, spells `src="URL"` after `p`, and ends after `p` |
| Html.UrlsFrom | src/utils.ts:62-64 | every URL the repeated `exec` yields from `pos` on is non-empty and free of `"` and `>` |
| Html.ExtractImageUrls | src/utils.ts:58-66 | the `exec` loop returns exactly the URLs of the leftmost-first matches, each resuming at the previous match's end |
| Html.ImageUrls | src/utils.ts:58-66 | every URL `extractImageUrls` returns is non-empty and free of `"` and `>` |
| Html.ImageUrlsTag | src/utils.ts:58-66 | an `<img src="url"…>` tag at the head of the HTML (attributes after the URL free of `"`, `>` and `<`) contributes exactly its URL, followed by the URLs of the text after the tag |
| Html.ImageUrlsSkip | src/utils.ts:58-66 | a prefix in which no `<img` starts contributes no URL: the URLs are those of the rest |
| Html.UrlsFromShift | src/utils.ts:60-64 | a match and the search that follows it depend only on the text from the search position on: scanning the whole text from `d + i` gives the URLs of scanning its suffix at `d` from `i` |
| Html.ImageUrlsFound | src/utils.ts:60-63 | every returned URL appears in the HTML as `src="URL"` after an `<img` |
| Html.NoImgNoUrls | test/utils.test.ts:27-34 | HTML without `<img` yields no URL |
| Html.RemoveTags | src/utils.ts:11 | removing `<…>` tags keeps only characters of the input and never lengthens it |
| Html.RemoveTagsTagFree | src/utils.ts:11 | the global replacement leaves no match of `<([^>]+)>` behind |
| Html.RemoveTagsFree | src/utils.ts:11 | text without a tag is left unchanged |
| Html.StripTags | src/utils.ts:10-12 | `stripTags` never lengthens its input |
| Html.TrimStart | src/utils.ts:6 | removes exactly the leading white space: what it drops is white space, and the rest starts with a non-space |
| Html.TrimEnd | src/utils.ts:6 | removes exactly the trailing white space: what it drops is white space, and the rest ends with a non-space |
| Html.Trim | src/utils.ts:6 | `trim` never lengthens the text, and a non-empty result does not end in white space |
| Html.TrimSpec | src/utils.ts:6 | `trim` gives the slice of the input between its leading and trailing white space, with white space at neither end |
| Html.TrimIdempotent | src/utils.ts:11 | trimming twice equals trimming once |
| Html.TrimClean | src/utils.ts:11 | text with no white space at either end is unchanged by `trim` |
| Html.CdataUnwrap | src/utils.ts:6 | a CDATA section loses exactly its `<![CDATA[` and `]]>` markers |
| Html.CdataAbsent | src/utils.ts:6 | text without the markers at its ends is unchanged |
| Html.StripCdata | src/utils.ts:6 | removing the CDATA markers never lengthens the text and removes at most the two markers |
| Html.CollapseNewlines | src/utils.ts:7 | after replacing newline runs with a space no newline is left, the text never grows, and every other character came from the input |
| Html.CollapseNoNewlines | src/utils.ts:7 | text without a newline is unchanged |
| Html.CollapseRun | src/utils.ts:7 | a run of one or more newlines between newline-free text becomes exactly one space |
| Html.StripTagsSpec | src/utils.ts:10-12 | `stripTags` leaves no tag and no white space at either end |
| Html.BuildDescription | src/utils.ts:5-8 | the description is never longer than the input and holds no newline |
| Html.BuildDescriptionSpec | src/utils.ts:5-8 | the description has no newline, no tag and no white space at either end |
| Html.BuildDescriptionPlain | src/utils.ts:5-8 | plain text (no tag, newline, edge white space or CDATA marker) is its own description |
| Html.BuildDescriptionCdata | src/utils.ts:5-8 | a CDATA section holding plain text describes as exactly that text |
| Html.PlainStrip | src/utils.ts:7-11 | plain text passes `stripTags` and the newline replacement unchanged |
| Assemble.PartPost | src/utils.ts:81-91 | part `index` carries `createdAt`; its text is `texts[index]` when that exists and is non-empty; it has an images embed of `images[index]` exactly when that group exists |
| Assemble.Helper | src/utils.ts:70-96 | keeps the accumulated posts as a prefix and appends one part per index up to the longer of the two lists |
| Assemble.ZipShape | src/utils.ts:70-96 | the thread has as many parts as the longer list, and part `i` is built from index `i` of both lists |
| Assemble.Zip | src/utils.ts:111 | the thread has as many parts as the longer of the text parts and the image groups, and every part carries `createdAt` |
| Assemble.HelperText | src/utils.ts:70-96 | the text of the accumulated posts and the appended parts, read in order, is the accumulated text plus every remaining text part |
| Assemble.HelperImages | src/utils.ts:70-96 | the images of the accumulated posts and the appended parts, read in order, are the accumulated images plus every remaining group |
| Assemble.ZipRoundTrip | src/utils.ts:70-96 | read in order, the thread's text is the concatenated text parts and its images are the concatenated groups |
| Thread.CreatePostObject | src/bsky.ts:95-108 | the object copies the post and has a `reply` exactly when all four linkage fields are truthy; the reply names the root and the previous part |
| Thread.ReplyAt | src/bsky.ts:42 | a call past the scripted answers fails |
| Thread.Advance | src/bsky.ts:50-56 | after an answered part the response becomes the previous part; the root is kept when truthy and otherwise becomes the response; the retry key is kept |
| Thread.Deliver | src/bsky.ts:20-63 | a run never sends more objects than the thread has parts |
| Thread.DeliverShape | src/bsky.ts:20-63 | a completed run sent every part; a stopped run sent at least one part and keeps the failed part and all later ones, with the same retry key |
| Thread.DeliverStops | src/bsky.ts:40-62 | a run completes only when every call was answered; it stops at the first failed call, keeping the context that part was sent with |
| Thread.DeliverSent | src/bsky.ts:38-46 | part `j` is posted as `createPostObject` of post `j` with the context left by the `j` answered parts before it |
| Thread.ContextPrevious | src/bsky.ts:50-55 | after an answered part the previous part is that part's response, and the retry key never changes |
| Thread.RootCarried | src/bsky.ts:53-54 | once the root is set it is carried unchanged to every later part |
| Thread.FirstIsRoot | src/bsky.ts:53-54 | the first answered part becomes the root unless a root was already set |
| Thread.ThreadLinkage | src/bsky.ts:40-58 | in a fresh thread part 0 has no `reply`; part `i > 0` replies to part 0's response as root and part `i - 1`'s response as parent |
| Thread.DeliverKey | src/bsky.ts:55 | the retry key does not change what is sent; it only travels into a stopped outcome |
| Thread.DeliverSameAnswers | src/bsky.ts:40-58 | a run depends only on the answers to the calls it makes |
| Thread.DeliverSplit | src/bsky.ts:38-58 | a thread whose first `m` parts are answered is those parts followed by the rest delivered from the context they leave behind |
| Thread.DeliverHead | src/bsky.ts:40-58 | a run whose every call is answered completes and sends every part |
| Thread.DeliverAppend | src/bsky.ts:38-58 | delivering `a + b` with `a` fully answered is delivering `a`, then `b` from the context `a` leaves behind |
| Thread.ResumeContinues | src/bsky.ts:65-87 | a stopped run, then a retry of its record, sends exactly what one uninterrupted run sends when the failed call is answered as the retry's first call, and ends the same way |
| Thread.ResumeTail | src/bsky.ts:74-82 | the retry of the stored parts is the tail of the uninterrupted run, up to its retry key |
| Thread.ResumeHead | src/bsky.ts:38-58 | the interrupted and the uninterrupted run share their answered head |
| Thread.DecimalRoundTrip | src/bsky.ts:116 | the decimal text of the fallback key's timestamp reads back as that timestamp |
| Thread.FallbackKeyInjective | src/bsky.ts:116 | distinct timestamps give distinct fallback keys |
| Thread.FailedKey | src/bsky.ts:116 | the key is the retry key when it is truthy, otherwise `failed_post_<now>`, and it is never empty |
| Thread.AfterThread | src/bsky.ts:33-61 | only the failed key can change; a completed run deletes a truthy retry key and without one leaves the store as it was; a stopped run writes the record of its context and remaining parts under the failed key |
| Thread.ThreadStore | src/bsky.ts:33-62 | a run touches one key: completing deletes the retry key (without one the store is unchanged); stopping writes the failed part, every later part and its context under the failed key |
| Environment.Env.Put | src/bsky.ts:112 | the key is mapped to the value and nothing else changes |
| Environment.Env.Delete | src/bsky.ts:34 | the key is removed (a missing key is no error) and nothing else changes |
| Environment.Env.Get | src/bsky.ts:131 | the stored value, or `null` exactly when the key is missing |
| Environment.Env.List | src/bsky.ts:127 | exactly the stored keys with the prefix, each once |
| Environment.UploadAt | src/utils.ts:119 | an upload past the scripted answers throws |
| Environment.Agent.SendPost | src/bsky.ts:42 | the object is appended to what was sent, and the answer is the scripted one for this call |
| Environment.Agent.UploadBlob | src/utils.ts:118-119 | one more upload call, answered by its scripted blob or a throw |
| Build.CreatedAt | src/utils.ts:101 | the item's `published` when truthy, otherwise the clock reading |
| Build.DescriptionOf | src/utils.ts:98 | `item.description` when it is truthy, otherwise the empty string |
| Build.UploadedImages | src/utils.ts:114-126 | one image per successful upload, in call order |
| Build.UploadImagesToBluesky | src/utils.ts:114-126 | all uploads succeed exactly when it returns; then image `j` is upload `j`'s blob; otherwise it stopped at the first failed upload |
| Build.BuildPost | src/utils.ts:68-112 | it returns exactly when every upload succeeds; the thread's text is the cleaned description, its images are the uploads in order, every part fits in 300 units with at most four images, and all share `createdAt` |
| Build.ThreadParts | src/utils.ts:98-111 | zipping a greedy split with a four-way grouping keeps the text and images in order and makes every part fit |
| Bsky.SaveFailedThread | src/bsky.ts:115-124 | the context's linkage and the remaining parts are written under the retry key or `failed_post_<now>` |
| Bsky.SaveFailedPost | src/bsky.ts:110-113 | the raw item is written under `failed_post_<id>` |
| Bsky.PostThread | src/bsky.ts:20-63 | the agent receives exactly the objects `Deliver` sends, and the store afterwards is that run's effect (delete on completion, a record on failure) |
| Bsky.GetFailedPosts | src/bsky.ts:126-138 | returns every `failed_post_` key holding a thread record with parts left, each once with its stored record, and nothing else |
| Bsky.RetryFailedPosts | src/bsky.ts:65-87 | the entries it lists are exactly the pending records of the store, each once with its record, and the store and sends afterwards are the sweep over them in order (`Sweep`): each record's parts posted from its stored linkage with its key as retry key, the outcome written under that key. So no key is created, every other key is unchanged, each pending key is deleted or holds a non-empty suffix of its parts, and sends are only appended |
| Bsky.RetryAll | src/bsky.ts:74-86 | after the loop the store and sends are the sweep over all entries, one retry per entry in list order, whatever the earlier retries did |
| Bsky.RetryOne | src/bsky.ts:75-82 | the store and sends afterwards are one retry step: the record's parts are delivered from its own linkage with its key as retry key, the objects are sent, and the outcome is written under that key |
| Bsky.RetryContext | src/bsky.ts:76-82 | the retry context carries the entry's key as retry key, and with the remaining parts it is exactly the stored record |
| Bsky.ListedResumable | src/bsky.ts:126-138 | every listed entry has a non-empty key and holds a thread record |
| Bsky.RetryStepOthers | src/bsky.ts:75-82 | one retry changes no key other than its own |
| Bsky.SweepOthers | src/bsky.ts:74-86 | the sweep leaves every key it does not retry as it was |
| Bsky.SweepExtends | src/bsky.ts:74-86 | the sweep only appends to what was sent |
| Bsky.SweepEffect | src/bsky.ts:74-86 | with distinct keys, each retried key ends as its own run left it: deleted when that run completed, otherwise holding the failed part, every later part and the context that part was sent with |
| Bsky.RetriedOne | src/bsky.ts:74-86 | after the sweep each listed key is deleted or holds a non-empty suffix of its parts |
| Bsky.SweepSwept | src/bsky.ts:65-87 | the sweep over the listed records creates no key, leaves every unlisted key unchanged, retries every listed key, and only appends sends |
| Bsky.PostItem | src/bsky.ts:9-17 | the item was built as `thread` with the upload calls it used, and the store and sends afterwards are one loop pass (`ItemStep`): the raw item under `failed_post_<id>` when the build threw, otherwise the thread delivered as a fresh thread with its run's store effect; only `failed_post_` keys are written and sends are only appended |
| Bsky.FreshThreadWrites | src/bsky.ts:12 | a thread without a retry key writes at most its fallback key and deletes nothing |
| Bsky.ItemStepWrites | src/bsky.ts:9-17 | one pass of the loop writes only `failed_post_` keys, deletes nothing, and only appends sends |
| Bsky.PublishWrites | src/bsky.ts:6-18 | the same holds over all items |
| Bsky.PublishAppend | src/bsky.ts:9-17 | posting `a + b` is posting `a`, then `b` from the store and sends `a` left: the loop carries on after every item |
| Bsky.PostToBsky | src/bsky.ts:6-18 | item `i` was built as `threads[i]` with upload calls `marks[i]` up to `marks[i + 1]`, and the store and sends afterwards are the loop over every item in order (`Publish`), whatever happened to the earlier ones; only `failed_post_` keys are written, none is removed, and sends are only appended |
| Cron.Ids | src/index.ts:53 | the ids of the items, in order |
| Cron.LastIds | src/index.ts:53 | for a stored item list, the ids of its items in order; for any other value, no ids |
| Cron.NewItems | src/index.ts:54 | the filter never yields more items than it was given, and none whose id was seen |
| Cron.NewItemsMembers | src/index.ts:54 | an item is new exactly when it is current and its id was not seen |
| Cron.NewItemsAppend | src/index.ts:54 | the filter keeps the feed's order: filtering a concatenation is concatenating the filtered lists |
| Cron.NewItemsIdempotent | src/index.ts:54 | filtering twice by the same ids equals filtering once |
| Cron.NewItemsAllSeen | src/index.ts:54 | when every current id was seen, nothing is new |
| Cron.NewItemsSeen | src/index.ts:48-54 | once the current list is stored, the same feed has no new items, so a seeding run posts nothing |
| Cron.HandleCron | src/index.ts:35-62 | the pass satisfies `CronPass`: without a truthy `last_items` the current list is stored and nothing is sent; otherwise new item `i` was built as `threads[i]`, and the store and sends afterwards are the `postToBsky` loop over the new items followed by storing the current list, or nothing at all when no item is new |
| Cron.LastItemsRestored | src/index.ts:56-58 | overwriting `last_items` after posting leaves only the `failed_post_` writes of the posting |
| Cron.Scheduled | src/index.ts:24-27 | the cron pass (`CronPass`) leads to an intermediate store, and the result is the retry sweep over exactly the pending records of that store; keys other than `last_items` and `failed_post_` keys are unchanged and sends are only appended |

## Left out

- Logging in (`getAgent`, src/bsky.ts:89-93) is left out. The agent is a parameter, already logged in. A failed login, which would throw out of `postToBsky` or `retryFailedPosts`, is not modelled.
- `fetchImageAsBlob` and the network are left out. A failed fetch and a failed `uploadBlob` are one scripted `None` answer to the upload call.
- Feed extraction (`extract` with `FEED_URL`) is left out. `HandleCron` takes the current items as a parameter.
- `delay` is left out because it has no observable effect. `console` output is left out.
- The clock is a parameter: one `Clock` reading per posted item, and `now` for the retry sweep. `new Date()` is not modelled.
- JSON encoding and decoding are left out. The store holds parsed values: a thread record, a raw item, an item list, or any other value with its truthiness.
- A stored value that is not a thread record is never treated as one. An arbitrary JSON object that happens to carry a non-empty `remainingParts` array is outside the model.
- KV and post calls never throw for a reason other than the scripted answers. A `put` or `delete` that throws inside `postThread` would reach the enclosing `catch`. That path is not modelled.
- `KV.list` paging is left out. The source reads only the first page of at most 1000 keys. `Env.List` returns every key with the prefix, in no promised order.
- Concurrency between overlapping cron runs is not modelled.
- Split.SplitTextIntoParts: strings are sequences of Unicode scalar values, so a lone surrogate (a string JavaScript allows) is not modelled.
- Split.ChunkArray: requires `chunkSize > 0` for a non-empty input. With `chunkSize <= 0` the source's loop does not terminate. The only caller passes 4.
- Build.BuildPost: states the thread's text, images and part limits, not that its parts are the particular zip of the split and the groups. That zip is stated by `Build.ThreadParts` and `Assemble.ZipShape`.
- Post titles, facets and links are not produced by the source and are not modelled.
- `String(val)` and `toString` in `stripTags` are left out. Every value reaching them is already a string.
