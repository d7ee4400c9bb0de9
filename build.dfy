/**
 * `buildPost` and `uploadImagesToBluesky` (src/utils.ts): a feed item
 * becomes the list of thread parts, text cut into parts of at most 300
 * UTF-16 units and images grouped by four, each group attached to the
 * part of the same index.
 */
module Build {
  import opened Wrappers
  import opened Types
  import opened Split
  import opened Html
  import opened Assemble
  import opened Environment

  /** At most four images go into one post. */
  const ImagesPerPost: int := 4

  /** `item.description || ''`. */
  function DescriptionOf(item: FeedItem): (r: string)
    ensures Truthy(item.description) ==> r == item.description.value
    ensures !Truthy(item.description) ==> r == ""
  {
    if Truthy(item.description) then item.description.value else ""
  }

  /** `item.published || new Date().toISOString()`, with the clock reading passed in. */
  function CreatedAt(item: FeedItem, nowIso: string): (r: string)
    ensures Truthy(item.published) ==> r == item.published.value
    ensures !Truthy(item.published) ==> r == nowIso
  {
    if Truthy(item.published) then item.published.value else nowIso
  }

  /** Upload calls `start .. start + count - 1` all succeed. */
  predicate UploadsSucceed(uploads: seq<Option<Blob>>, start: nat, count: nat)
  {
    forall n :: start <= n < start + count ==> UploadAt(uploads, n).Some?
  }

  /** The images made from the blobs of upload calls `start .. start + count - 1`, in order. */
  function UploadedImages(uploads: seq<Option<Blob>>, start: nat, count: nat): (r: seq<Image>)
    requires UploadsSucceed(uploads, start, count)
    ensures |r| == count
  {
    if count == 0 then []
    else UploadedImages(uploads, start, count - 1) + [Image(UploadAt(uploads, start + count - 1).value)]
  }

  /**
   * `uploadImagesToBluesky(agent, imageUrls)`: one upload per URL, in order;
   * the first upload that throws ends the loop and the exception propagates
   * (`None`). Otherwise image `j` is the blob of upload `j`.
   */
  method UploadImagesToBluesky(agent: Agent, imageUrls: seq<string>) returns (images: Option<seq<Image>>)
    modifies agent`uploadCalls
    ensures images.Some? <==> UploadsSucceed(agent.uploads, old(agent.uploadCalls), |imageUrls|)
    ensures images.Some? ==> agent.uploadCalls == old(agent.uploadCalls) + |imageUrls|
    ensures images.Some? ==> images.value == UploadedImages(agent.uploads, old(agent.uploadCalls), |imageUrls|)
    ensures images.None? ==> old(agent.uploadCalls) < agent.uploadCalls <= old(agent.uploadCalls) + |imageUrls|
    ensures images.None? ==> UploadsSucceed(agent.uploads, old(agent.uploadCalls), agent.uploadCalls - 1 - old(agent.uploadCalls))
    ensures images.None? ==> UploadAt(agent.uploads, agent.uploadCalls - 1).None?
  {
    var start := agent.uploadCalls;
    var result: seq<Image> := [];
    for i := 0 to |imageUrls|
      invariant agent.uploadCalls == start + i
      invariant UploadsSucceed(agent.uploads, start, i)
      invariant result == UploadedImages(agent.uploads, start, i)
    {
      var blob := agent.UploadBlob();
      if blob.None? {
        return None;
      }
      result := result + [Image(blob.value)];
    }
    return Some(result);
  }

  /**
   * Every part of a thread carries `createdAt`, text of at most 300 units,
   * and, when it has an embed, an images embed of one to four images.
   */
  predicate PartsFit(posts: seq<Post>, createdAt: string)
  {
    forall i :: 0 <= i < |posts| ==>
      && posts[i].createdAt == createdAt
      && (posts[i].text.Some? ==> Units(posts[i].text.value) <= DefaultMaxLength)
      && (posts[i].embed.Some? ==> posts[i].embed.value.kind == ImagesEmbedType
                                   && 0 < |posts[i].embed.value.images| <= ImagesPerPost)
  }

  /**
   * What building `item` did, with upload calls `start .. next - 1`: it
   * succeeds exactly when all its uploads do, and then the thread's text is
   * the cleaned description, its images are the uploads in order, and every
   * part fits; otherwise it stopped at the first upload that threw.
   */
  predicate Built(item: FeedItem, nowIso: string, thread: Option<seq<Post>>, uploads: seq<Option<Blob>>, start: nat, next: nat)
  {
    var count := |ImageUrls(DescriptionOf(item))|;
    && (thread.Some? <==> UploadsSucceed(uploads, start, count))
    && (thread.Some? ==>
          && next == start + count
          && AllText(thread.value) == BuildDescription(DescriptionOf(item))
          && AllImages(thread.value) == UploadedImages(uploads, start, count)
          && PartsFit(thread.value, CreatedAt(item, nowIso)))
    && (thread.None? ==> start < next <= start + count && UploadAt(uploads, next - 1).None?)
  }

  /**
   * `buildPost(item, agent)`: the image URLs of the description are uploaded
   * (an upload failure propagates as `None`), the description is cleaned
   * and cut into parts, the images are grouped by four, and the two lists
   * are zipped. The thread's text read in order is the cleaned description,
   * its images read in order are the uploads, every part fits in 300 units,
   * and every part shares one `createdAt`.
   */
  method BuildPost(agent: Agent, item: FeedItem, nowIso: string) returns (posts: Option<seq<Post>>)
    modifies agent`uploadCalls
    ensures posts.Some? <==> UploadsSucceed(agent.uploads, old(agent.uploadCalls), |ImageUrls(DescriptionOf(item))|)
    ensures posts.Some? ==> AllText(posts.value) == BuildDescription(DescriptionOf(item))
    ensures posts.Some? ==> AllImages(posts.value) == UploadedImages(agent.uploads, old(agent.uploadCalls), |ImageUrls(DescriptionOf(item))|)
    ensures posts.Some? ==> PartsFit(posts.value, CreatedAt(item, nowIso))
    ensures Built(item, nowIso, posts, agent.uploads, old(agent.uploadCalls), agent.uploadCalls)
  {
    var description := DescriptionOf(item);
    var imageUrls := ExtractImageUrls(description);
    var images := UploadImagesToBluesky(agent, imageUrls);
    if images.None? {
      return None;
    }
    var createdAt := CreatedAt(item, nowIso);
    var text := BuildDescription(description);
    var splitText := SplitTextIntoParts(text, DefaultMaxLength);
    var imageGroups := ChunkArray(images.value, ImagesPerPost);
    var result := Zip(splitText, imageGroups, createdAt);
    ThreadParts(text, splitText, images.value, imageGroups, createdAt);
    return Some(result);
  }

  /**
   * The zip of a greedy split of `text` and of a grouping of `images` by
   * four: its text read in order is `text`, its images read in order are
   * `images`, every part fits in 300 units and carries at most four images.
   */
  lemma ThreadParts(text: string, texts: seq<string>, images: seq<Image>, groups: seq<seq<Image>>, createdAt: string)
    requires IsGreedySplit(text, DefaultMaxLength, texts)
    requires Flatten(groups) == images
    requires forall k :: 0 <= k < |groups| ==> 0 < |groups[k]| <= ImagesPerPost
    ensures AllText(Zip(texts, groups, createdAt)) == text
    ensures AllImages(Zip(texts, groups, createdAt)) == images
    ensures PartsFit(Zip(texts, groups, createdAt), createdAt)
  {
    ZipShape(texts, groups, createdAt);
    ZipRoundTrip(texts, groups, createdAt);
    SplitDefaultParts(text, DefaultMaxLength, texts);
    assert Flatten(texts) == text;
  }
}
