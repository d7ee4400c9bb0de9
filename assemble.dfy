/**
 * The `helper` inside `buildPost` (src/utils.ts): it zips the text parts and
 * the image groups into one list of posts, post `i` taking text part `i`
 * and image group `i`, all sharing one `createdAt`.
 */
module Assemble {
  import opened Wrappers
  import opened Types

  /**
   * Post `index` of the zip: `texts[index] || undefined` (a missing or empty
   * part gives no text) and an images embed exactly when `images[index]`
   * exists (an array is truthy even when empty).
   */
  function PartPost(texts: seq<string>, images: seq<seq<Image>>, createdAt: string, index: nat): (p: Post)
    ensures p.createdAt == createdAt
    ensures p.text.Some? <==> index < |texts| && texts[index] != ""
    ensures p.text.Some? ==> p.text.value == texts[index]
    ensures p.embed.Some? <==> index < |images|
    ensures p.embed.Some? ==> p.embed.value == Embed(ImagesEmbedType, images[index])
  {
    Post(if index < |texts| && texts[index] != "" then Some(texts[index]) else None,
         if index < |images| then Some(Embed(ImagesEmbedType, images[index])) else None,
         createdAt)
  }

  /** How many posts remain from `index`: the longer list decides. */
  function Remaining(texts: seq<string>, images: seq<seq<Image>>, index: nat): nat
  {
    if index >= |texts| && index >= |images| then 0 else Max(|texts|, |images|) - index
  }

  /**
   * `helper(texts, images, createdAt, index, posts)`: pushes post `index`
   * onto the accumulator and recurses until both lists are exhausted.
   * The accumulator is kept as it was, followed by posts `index`, `index + 1`, ...
   */
  function Helper(texts: seq<string>, images: seq<seq<Image>>, createdAt: string, index: nat, posts: seq<Post>): (r: seq<Post>)
    ensures |r| == |posts| + Remaining(texts, images, index)
    ensures r[..|posts|] == posts
    ensures forall i :: |posts| <= i < |r| ==> r[i] == PartPost(texts, images, createdAt, index + (i - |posts|))
    decreases Max(|texts|, |images|) - index
  {
    if index >= |texts| && index >= |images| then posts
    else
      var post := PartPost(texts, images, createdAt, index);
      Helper(texts, images, createdAt, index + 1, posts + [post])
  }

  /** `helper(splitText, imageGroups, createdAt)` as `buildPost` calls it. */
  function Zip(texts: seq<string>, images: seq<seq<Image>>, createdAt: string): (r: seq<Post>)
    ensures |r| == Max(|texts|, |images|)
    ensures forall i :: 0 <= i < |r| ==> r[i].createdAt == createdAt
  {
    Helper(texts, images, createdAt, 0, [])
  }

  /**
   * The zip has `max(texts.length, images.length)` posts, all with the same
   * `createdAt`; post `i` has text `texts[i]` when that exists and is
   * non-empty, and the images embed of group `i` exactly when `i < images.length`.
   */
  lemma ZipShape(texts: seq<string>, images: seq<seq<Image>>, createdAt: string)
    ensures var r := Zip(texts, images, createdAt);
      && |r| == Max(|texts|, |images|)
      && (forall i :: 0 <= i < |r| ==> r[i].createdAt == createdAt)
      && (forall i :: 0 <= i < |r| ==> (r[i].text.Some? <==> i < |texts| && texts[i] != ""))
      && (forall i :: 0 <= i < |r| && r[i].text.Some? ==> r[i].text.value == texts[i])
      && (forall i :: 0 <= i < |r| ==> (r[i].embed.Some? <==> i < |images|))
      && (forall i :: 0 <= i < |r| && r[i].embed.Some? ==> r[i].embed.value == Embed(ImagesEmbedType, images[i]))
  {
    var r := Zip(texts, images, createdAt);
    forall i | 0 <= i < |r|
      ensures r[i] == PartPost(texts, images, createdAt, i)
    {
    }
  }

  /** The text a post carries, `""` for none. */
  function PostText(p: Post): string
  {
    if p.text.Some? then p.text.value else ""
  }

  /** The images a post carries, none without an embed. */
  function PostImages(p: Post): seq<Image>
  {
    if p.embed.Some? then p.embed.value.images else []
  }

  /** The texts of a thread read in order. */
  function AllText(posts: seq<Post>): string
  {
    if posts == [] then [] else PostText(posts[0]) + AllText(posts[1..])
  }

  /** The images of a thread in order. */
  function AllImages(posts: seq<Post>): seq<Image>
  {
    if posts == [] then [] else PostImages(posts[0]) + AllImages(posts[1..])
  }

  lemma {:induction false} AllTextSnoc(posts: seq<Post>, p: Post)
    ensures AllText(posts + [p]) == AllText(posts) + PostText(p)
  {
    if posts == [] {
      assert [p][1..] == [];
    } else {
      assert (posts + [p])[1..] == posts[1..] + [p];
      AllTextSnoc(posts[1..], p);
    }
  }

  lemma {:induction false} AllImagesSnoc(posts: seq<Post>, p: Post)
    ensures AllImages(posts + [p]) == AllImages(posts) + PostImages(p)
  {
    if posts == [] {
      assert [p][1..] == [];
    } else {
      assert (posts + [p])[1..] == posts[1..] + [p];
      AllImagesSnoc(posts[1..], p);
    }
  }

  /** A list read from `index` on, empty once `index` is past its end. */
  function From<T>(s: seq<T>, index: nat): seq<T>
  {
    if index <= |s| then s[index..] else []
  }

  lemma FlattenFrom<T>(s: seq<seq<T>>, index: nat)
    requires index < |s|
    ensures Flatten(From(s, index)) == s[index] + Flatten(From(s, index + 1))
  {
    assert s[index..][1..] == s[index + 1..];
  }

  /** One step of `helper`: post `index` is pushed and the recursion moves on. */
  lemma HelperUnfold(texts: seq<string>, images: seq<seq<Image>>, createdAt: string, index: nat, posts: seq<Post>)
    requires index < |texts| || index < |images|
    ensures Helper(texts, images, createdAt, index, posts)
         == Helper(texts, images, createdAt, index + 1, posts + [PartPost(texts, images, createdAt, index)])
  {
  }

  /** Post `index` carries text part `index` (or nothing past the end). */
  lemma PartText(texts: seq<string>, images: seq<seq<Image>>, createdAt: string, index: nat)
    ensures PostText(PartPost(texts, images, createdAt, index)) + Flatten(From(texts, index + 1)) == Flatten(From(texts, index))
  {
    if index < |texts| {
      FlattenFrom(texts, index);
    } else {
      assert From(texts, index) == [] && From(texts, index + 1) == [];
    }
  }

  /** Post `index` carries image group `index` (or nothing past the end). */
  lemma PartImages(texts: seq<string>, images: seq<seq<Image>>, createdAt: string, index: nat)
    ensures PostImages(PartPost(texts, images, createdAt, index)) + Flatten(From(images, index + 1)) == Flatten(From(images, index))
  {
    if index < |images| {
      FlattenFrom(images, index);
    } else {
      assert From(images, index) == [] && From(images, index + 1) == [];
    }
  }

  /** No text is lost or added: the thread's texts read in order give back the parts read in order. */
  lemma {:induction false} HelperText(texts: seq<string>, images: seq<seq<Image>>, createdAt: string, index: nat, posts: seq<Post>)
    ensures AllText(Helper(texts, images, createdAt, index, posts)) == AllText(posts) + Flatten(From(texts, index))
    decreases Max(|texts|, |images|) - index
  {
    if index >= |texts| && index >= |images| {
      assert From(texts, index) == [];
    } else {
      var post := PartPost(texts, images, createdAt, index);
      calc {
        AllText(Helper(texts, images, createdAt, index, posts));
        { HelperUnfold(texts, images, createdAt, index, posts); }
        AllText(Helper(texts, images, createdAt, index + 1, posts + [post]));
        { HelperText(texts, images, createdAt, index + 1, posts + [post]); }
        AllText(posts + [post]) + Flatten(From(texts, index + 1));
        { AllTextSnoc(posts, post); }
        AllText(posts) + (PostText(post) + Flatten(From(texts, index + 1)));
        { PartText(texts, images, createdAt, index); }
        AllText(posts) + Flatten(From(texts, index));
      }
    }
  }

  /** No image is lost or added: the thread's images read in order give back the groups read in order. */
  lemma {:induction false} HelperImages(texts: seq<string>, images: seq<seq<Image>>, createdAt: string, index: nat, posts: seq<Post>)
    ensures AllImages(Helper(texts, images, createdAt, index, posts)) == AllImages(posts) + Flatten(From(images, index))
    decreases Max(|texts|, |images|) - index
  {
    if index >= |texts| && index >= |images| {
      assert From(images, index) == [];
    } else {
      var post := PartPost(texts, images, createdAt, index);
      calc {
        AllImages(Helper(texts, images, createdAt, index, posts));
        { HelperUnfold(texts, images, createdAt, index, posts); }
        AllImages(Helper(texts, images, createdAt, index + 1, posts + [post]));
        { HelperImages(texts, images, createdAt, index + 1, posts + [post]); }
        AllImages(posts + [post]) + Flatten(From(images, index + 1));
        { AllImagesSnoc(posts, post); }
        AllImages(posts) + (PostImages(post) + Flatten(From(images, index + 1)));
        { PartImages(texts, images, createdAt, index); }
        AllImages(posts) + Flatten(From(images, index));
      }
    }
  }

  /** The zip is a round trip for both lists: its texts and its images read back in order. */
  lemma ZipRoundTrip(texts: seq<string>, images: seq<seq<Image>>, createdAt: string)
    ensures AllText(Zip(texts, images, createdAt)) == Flatten(texts)
    ensures AllImages(Zip(texts, images, createdAt)) == Flatten(images)
  {
    HelperText(texts, images, createdAt, 0, []);
    HelperImages(texts, images, createdAt, 0, []);
    assert From(texts, 0) == texts && From(images, 0) == images;
  }
}
