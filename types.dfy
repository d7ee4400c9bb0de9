/** The optional-value wrapper used for JavaScript's `undefined`. */
module Wrappers {
  datatype Option<+T> = None | Some(value: T)
}

/**
 * The values the worker passes around: posts (src/types.ts), feed items,
 * responses of the posting service and the values held in the key-value store.
 */
module Types {
  import opened Wrappers

  /** An opaque reference to an uploaded image blob. */
  type Blob = string

  /** One uploaded image, `{ image: data.blob }`. */
  datatype Image = Image(image: Blob)

  /** The `embed` of a post: a `$type` tag and the images it carries. */
  datatype Embed = Embed(kind: string, images: seq<Image>)

  /** A thread part as built by `buildPost`: `text` may be undefined. */
  datatype Post = Post(text: Option<string>, embed: Option<Embed>, createdAt: string)

  const ImagesEmbedType: string := "app.bsky.embed.images"

  /** A feed entry; only the fields the worker reads are kept. */
  datatype FeedItem = FeedItem(id: string, published: Option<string>, description: Option<string>)

  /** JavaScript truthiness of an optional string: `undefined` and `""` are falsy. */
  predicate Truthy(s: Option<string>)
  {
    s.Some? && s.value != ""
  }

  /** `a || b` on optional strings. */
  function Or(a: Option<string>, b: Option<string>): (r: Option<string>)
    ensures Truthy(a) ==> r == a
    ensures !Truthy(a) ==> r == b
  {
    if Truthy(a) then a else b
  }

  /** A `{ uri, cid }` pair as it appears in a reply reference. */
  datatype StrongRef = StrongRef(uri: string, cid: string)

  /** The `reply` field: the thread root and the direct parent. */
  datatype ReplyRef = ReplyRef(root: StrongRef, parent: StrongRef)

  /** The payload handed to the posting service: a post plus an optional `reply`. */
  datatype PostObject = PostObject(post: Post, reply: Option<ReplyRef>)

  /**
   * What the posting service does with one `agent.post` call: it either
   * answers with a `{ uri, cid }` response or throws.
   */
  datatype Response = Posted(uri: Option<string>, cid: Option<string>) | Failed

  /**
   * A value in the key-value store, after `JSON.parse`: a failed-thread
   * record, a raw feed item saved by `saveFailedPost`, the `last_items`
   * array, or any other JSON value (only its truthiness matters).
   */
  datatype Value =
    | ThreadRecord(previousUri: Option<string>, previousCid: Option<string>,
                   rootUri: Option<string>, rootCid: Option<string>,
                   remainingParts: seq<Post>)
    | RawItem(item: FeedItem)
    | ItemList(items: seq<FeedItem>)
    | Other(truthy: bool)

  /** JavaScript truthiness of a parsed store value (objects and arrays are truthy). */
  predicate TruthyValue(v: Option<Value>)
  {
    v.Some? && (v.value.Other? ==> v.value.truthy)
  }

  /** `s` starts with `prefix`. */
  predicate HasPrefix(s: string, prefix: string)
  {
    |prefix| <= |s| && s[..|prefix|] == prefix
  }

  function Max(a: int, b: int): int
  {
    if a < b then b else a
  }

  function Min(a: int, b: int): int
  {
    if a < b then a else b
  }

  /** The concatenation of a sequence of sequences, in order. */
  function Flatten<T>(parts: seq<seq<T>>): seq<T>
  {
    if parts == [] then [] else parts[0] + Flatten(parts[1..])
  }

  lemma {:induction false} FlattenAppend<T>(a: seq<seq<T>>, b: seq<seq<T>>)
    ensures Flatten(a + b) == Flatten(a) + Flatten(b)
  {
    if a == [] {
      assert a + b == b;
    } else {
      assert (a + b)[1..] == a[1..] + b;
      FlattenAppend(a[1..], b);
    }
  }

  lemma FlattenSnoc<T>(a: seq<seq<T>>, x: seq<T>)
    ensures Flatten(a + [x]) == Flatten(a) + x
  {
    FlattenAppend(a, [x]);
    assert Flatten([x]) == x + Flatten([x][1..]);
  }

  /** Every element of every part occurs in the flattened sequence. */
  lemma {:induction false} FlattenContains<T>(parts: seq<seq<T>>, j: nat, k: nat)
    requires j < |parts| && k < |parts[j]|
    ensures parts[j][k] in Flatten(parts)
  {
    if j == 0 {
      assert Flatten(parts) == parts[0] + Flatten(parts[1..]);
      assert Flatten(parts)[k] == parts[0][k];
    } else {
      FlattenContains(parts[1..], j - 1, k);
      assert parts[1..][j - 1] == parts[j];
    }
  }
}
