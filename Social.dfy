/**
 * The social media publishers (social_media_publisher.py): the Facebook
 * message and the Instagram caption built from an article, and the rule that
 * decides which posts `publish_to_all` makes. The Graph API requests are a
 * collaborator: one function per kind of post, returning the new post's id or
 * `None` on failure.
 */
module Social {
  import opened Common
  import opened Strings
  import opened Payloads

  /** `s.endswith(p)` */
  predicate EndsWith(s: string, p: string) {
    |p| <= |s| && s[|s| - |p|..] == p
  }

  lemma HeadMiddleTail(head: string, middle: string, tail: string)
    ensures var s := head + middle + tail;
      StartsWith(s, head) && EndsWith(s, tail) && s[|head|..|s| - |tail|] == middle
  {
    var s := head + middle + tail;
    assert s[..|head|] == head;
    assert s[|s| - |tail|..] == tail;
    assert s[|head|..|s| - |tail|] == middle;
  }

  // ---------------------------------------------------------------- Facebook

  const FacebookMarker: string := "📢 "
  const ReadOn: string := "\n\nЧитайте полную статью на нашем сайте! 👇\n"
  const FacebookHashtags: string := "\n\n#энергоаудит #тепловизия #вентиляция #теплопотери #энергоэффективность"

  /** The part of the Facebook message before the optional link line. */
  function MessageHead(article: ArticleFields): string {
    FacebookMarker + article.title.GetOr("") + "\n\n" + Take(article.description.GetOr(""), 200) + "..." + ReadOn
  }

  /** The optional link line: a newline and the blog address, only when the address is non-empty. */
  function LinkLine(blogUrl: Option<string>): (r: string)
    ensures r == "" <==> !Truthy(blogUrl)
    ensures Truthy(blogUrl) ==> r == "\n" + blogUrl.value
  {
    if Truthy(blogUrl) then "\n" + blogUrl.value else ""
  }

  /**
   * `FacebookPublisher.format_post_message`: the marker and the title, at
   * most 200 characters of the description followed by `...` and the
   * invitation to read on, the blog address on its own line when there is
   * one, and the hashtag line last.
   */
  function FormatPostMessage(article: ArticleFields, blogUrl: Option<string>): (m: string)
    ensures StartsWith(m, FacebookMarker + article.title.GetOr("") + "\n\n")
    ensures StartsWith(m, MessageHead(article))
    ensures EndsWith(m, FacebookHashtags)
    ensures |m| == |MessageHead(article)| + |LinkLine(blogUrl)| + |FacebookHashtags|
    ensures m[|MessageHead(article)|..|m| - |FacebookHashtags|] == LinkLine(blogUrl)
  {
    var head := MessageHead(article);
    HeadMiddleTail(head, LinkLine(blogUrl), FacebookHashtags);
    assert StartsWith(head, FacebookMarker + article.title.GetOr("") + "\n\n");
    head + LinkLine(blogUrl) + FacebookHashtags
  }

  /** Only the first 200 characters of the description can reach the message. */
  lemma MessageSeesOnlyExcerpt(a: ArticleFields, b: ArticleFields, blogUrl: Option<string>)
    requires a.title == b.title
    requires Take(a.description.GetOr(""), 200) == Take(b.description.GetOr(""), 200)
    ensures FormatPostMessage(a, blogUrl) == FormatPostMessage(b, blogUrl)
  {
  }

  /** The excerpt in the message is at most 200 characters and begins the description. */
  lemma MessageExcerptBounded(article: ArticleFields, blogUrl: Option<string>)
    ensures var excerpt := Take(article.description.GetOr(""), 200);
      |excerpt| <= 200 && StartsWith(article.description.GetOr(""), excerpt)
      && SliceAt(excerpt + "...", FormatPostMessage(article, blogUrl), |FacebookMarker| + |article.title.GetOr("")| + 2)
  {
    var m := FormatPostMessage(article, blogUrl);
    var excerpt := Take(article.description.GetOr(""), 200);
    var pre := FacebookMarker + article.title.GetOr("") + "\n\n";
    var at := |pre|;
    var head := MessageHead(article);
    assert head == pre + (excerpt + "...") + ReadOn;
    assert head[at..at + |excerpt| + 3] == excerpt + "...";
    assert m[..|MessageHead(article)|] == MessageHead(article);
    assert m[at..at + |excerpt| + 3] == head[at..at + |excerpt| + 3];
  }

  /** A missing and an empty blog address give the same message; a non-empty one adds its own line. */
  lemma LinkLineOnlyForAddress(article: ArticleFields, url: string)
    ensures FormatPostMessage(article, None) == FormatPostMessage(article, Some(""))
    ensures url != "" ==>
      |FormatPostMessage(article, Some(url))| == |FormatPostMessage(article, None)| + 1 + |url|
  {
  }

  /** The request `FacebookPublisher.create_post` sends: the link is only included when non-empty. */
  datatype FeedRequest = FeedRequest(message: string, link: Option<string>)

  function NewFeedRequest(message: string, link: Option<string>): (r: FeedRequest)
    ensures r.message == message
    ensures r.link.Some? <==> Truthy(link)
    ensures r.link.Some? ==> r.link == link
  {
    FeedRequest(message, if Truthy(link) then link else None)
  }

  // ---------------------------------------------------------------- Instagram

  const CaptionTrailer: string :=
    "...\n\nБольше информации на нашем сайте energo-audit.by\n\n"
    + "#энергоаудит #тепловизия #вентиляция #теплопотери #энергоэффективность #дом #ремонт #стройка #беларусь\n"

  /**
   * `InstagramPublisher.format_post_caption`: the title, a blank line, at
   * most 150 characters of the description, then the fixed trailer with the
   * site address and the hashtags.
   */
  function FormatPostCaption(article: ArticleFields): (c: string)
    ensures var excerpt := Take(article.description.GetOr(""), 150);
      && StartsWith(c, article.title.GetOr("") + "\n\n")
      && EndsWith(c, CaptionTrailer)
      && |c| == |article.title.GetOr("")| + 2 + |excerpt| + |CaptionTrailer|
      && c[|article.title.GetOr("")| + 2..|c| - |CaptionTrailer|] == excerpt
      && |excerpt| <= 150 && StartsWith(article.description.GetOr(""), excerpt)
  {
    var head := article.title.GetOr("") + "\n\n";
    var excerpt := Take(article.description.GetOr(""), 150);
    HeadMiddleTail(head, excerpt, CaptionTrailer);
    head + excerpt + CaptionTrailer
  }

  /** Only the first 150 characters of the description can reach the caption. */
  lemma CaptionSeesOnlyExcerpt(a: ArticleFields, b: ArticleFields)
    requires a.title == b.title
    requires Take(a.description.GetOr(""), 150) == Take(b.description.GetOr(""), 150)
    ensures FormatPostCaption(a) == FormatPostCaption(b)
  {
  }

  /** `InstagramPublisher.create_carousel_post`: not implemented, it never posts. */
  function CreateCarouselPost(imageUrls: seq<string>, caption: string): (r: Option<string>)
    ensures r.None?
  {
    None
  }

  // ---------------------------------------------------------------- publish_to_all

  /**
   * The Graph API: a page feed post, a page photo post, and an Instagram post
   * (media container plus publish), each giving the new id or `None`.
   */
  datatype SocialNetwork = SocialNetwork(
    feedPost: FeedRequest -> Option<string>,
    photoPost: (string, string) -> Option<string>,
    instagramPost: (string, string) -> Option<string>)

  /** One request made to the Graph API. */
  datatype SocialCall =
    | FeedPost(request: FeedRequest)
    | PhotoPost(message: string, imageUrl: string)
    | InstagramPost(imageUrl: string, caption: string)

  /**
   * `SocialMediaManager.publish_to_all`: with an image, a Facebook photo post
   * and an Instagram post; without one, a Facebook link post and no Instagram
   * call. The result always holds both platform keys.
   */
  method PublishToAll(net: SocialNetwork, article: ArticleFields, blogUrl: Option<string>, imageUrl: Option<string>)
    returns (results: map<string, Option<string>>, calls: seq<SocialCall>)
    ensures results.Keys == {"facebook", "instagram"}
    ensures |calls| >= 1 && (calls[0].PhotoPost? <==> Truthy(imageUrl))
    ensures Truthy(imageUrl) ==>
      var message := FormatPostMessage(article, blogUrl);
      && calls == [PhotoPost(message, imageUrl.value), InstagramPost(imageUrl.value, FormatPostCaption(article))]
      && results["facebook"] == net.photoPost(message, imageUrl.value)
      && results["instagram"] == net.instagramPost(imageUrl.value, FormatPostCaption(article))
    ensures !Truthy(imageUrl) ==>
      var request := NewFeedRequest(FormatPostMessage(article, blogUrl), blogUrl);
      && calls == [FeedPost(request)]
      && results["facebook"] == net.feedPost(request)
      && results["instagram"] == None
  {
    results := map[];
    calls := [];
    var message := FormatPostMessage(article, blogUrl);
    var facebookId: Option<string>;
    if Truthy(imageUrl) {
      facebookId := net.photoPost(message, imageUrl.value);
      calls := calls + [PhotoPost(message, imageUrl.value)];
    } else {
      var request := NewFeedRequest(message, blogUrl);
      facebookId := net.feedPost(request);
      calls := calls + [FeedPost(request)];
    }
    results := results["facebook" := facebookId];
    if Truthy(imageUrl) {
      var caption := FormatPostCaption(article);
      var instagramId := net.instagramPost(imageUrl.value, caption);
      calls := calls + [InstagramPost(imageUrl.value, caption)];
      results := results["instagram" := instagramId];
    } else {
      results := results["instagram" := None];
    }
  }
}
