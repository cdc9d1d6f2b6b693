/**
 * The built-in catalogue of four articles and its queries: lookup by slug,
 * the featured and regular lists, and the whole list.
 */
module BlogPosts {
  import opened Wrappers
  import opened Sequences

  /** One catalogue entry. The HTML body of an article is not carried. */
  datatype Post = Post(
    id: string,
    title: string,
    excerpt: string,
    author: string,
    publishedDate: string,
    readTime: string,
    category: string,
    slug: string,
    featured: bool,
    tags: Option<seq<string>>,
    image: Option<string>)

  /** The catalogue. The first entry's id is not its slug. */
  const Catalogue: seq<Post> := [
    Post("what-is-stable-diffusion",
         "What is Stable Diffusion?",
         "Discover how to leverage AI tools to boost your productivity and creativity. "
           + "This comprehensive guide covers everything from chatbots to image generation.",
         "AI Tools Hub", "2024-01-15", "8 min read", "AI Guides",
         "getting-started-with-ai-tools", true,
         Some(["AI", "beginners", "productivity", "guides"]), Some("/images/ai-tools.jpg")),
    Post("top-ai-chatbots-2024",
         "Top 10 AI Chatbots That Will Transform Your Workflow in 2024",
         "Explore the most powerful AI chatbots available today and learn how they can "
           + "streamline your communication and content creation.",
         "AI Tools Hub", "2024-01-10", "6 min read", "AI Tools",
         "top-ai-chatbots-2024", false,
         Some(["chatbots", "AI", "productivity", "tools"]), Some("/images/ai-chatbots.jpg")),
    Post("ai-image-generation-comparison",
         "Midjourney vs DALL-E vs Stable Diffusion: Which AI Image Generator is Best?",
         "A detailed comparison of the top AI image generation tools, including pricing, "
           + "features, and use cases for each platform.",
         "AI Tools Hub", "2024-01-05", "10 min read", "AI Comparison",
         "ai-image-generation-comparison", false,
         Some(["image generation", "AI", "comparison", "Midjourney", "DALL-E"]),
         Some("/images/ai-image-comparison.jpg")),
    Post("ai-productivity-tools",
         "10 AI Productivity Tools That Will Save You Hours Every Day",
         "Discover AI-powered tools that can automate repetitive tasks and help you focus "
           + "on what matters most in your work.",
         "AI Tools Hub", "2024-01-01", "7 min read", "Productivity",
         "ai-productivity-tools", false,
         Some(["productivity", "AI", "tools", "automation"]), Some("/images/ai-productivity.jpg"))
  ]

  /** `posts.find(post => post.slug === slug)`: the first post with that slug. */
  function FindBySlug(posts: seq<Post>, slug: string): (r: Option<Post>)
    ensures r.None? <==> forall i :: 0 <= i < |posts| ==> posts[i].slug != slug
    ensures r.Some? ==> r.value.slug == slug
    ensures r.Some? ==> exists i :: 0 <= i < |posts| && posts[i] == r.value
                                    && forall j :: 0 <= j < i ==> posts[j].slug != slug
  {
    if posts == [] then None
    else if posts[0].slug == slug then Some(posts[0])
    else
      var r := FindBySlug(posts[1..], slug);
      assert r.Some? ==> exists i :: 0 <= i < |posts[1..]| && posts[1..][i] == r.value
                                     && forall j :: 0 <= j < i ==> posts[1..][j].slug != slug;
      if r.Some? then
        var i :| 0 <= i < |posts[1..]| && posts[1..][i] == r.value
                 && forall j :: 0 <= j < i ==> posts[1..][j].slug != slug;
        assert posts[i + 1] == r.value && forall j :: 0 <= j < i + 1 ==> posts[j].slug != slug;
        r
      else r
  }

  /** `posts.filter(post => post.featured === wanted)`. */
  function WithFeatured(posts: seq<Post>, wanted: bool): (r: seq<Post>)
    ensures forall p :: p in r <==> p in posts && p.featured == wanted
    ensures IsSubsequence(r, posts)
  {
    if posts == [] then []
    else if posts[0].featured == wanted then
      var rest := WithFeatured(posts[1..], wanted);
      assert ([posts[0]] + rest)[1..] == rest;
      [posts[0]] + rest
    else
      var rest := WithFeatured(posts[1..], wanted);
      assert rest == [] || IsSubsequence(rest, posts[1..]);
      rest
  }

  /** The featured and the regular posts split the list: together they hold
      every post exactly as often as the list does. */
  lemma {:induction false} FeaturedSplit(posts: seq<Post>)
    ensures multiset(WithFeatured(posts, true)) + multiset(WithFeatured(posts, false)) == multiset(posts)
    ensures |WithFeatured(posts, true)| + |WithFeatured(posts, false)| == |posts|
  {
    if posts != [] {
      FeaturedSplit(posts[1..]);
      assert posts == [posts[0]] + posts[1..];
    }
  }

  /** No post is both featured and regular. */
  lemma FeaturedDisjoint(posts: seq<Post>)
    ensures forall p :: !(p in WithFeatured(posts, true) && p in WithFeatured(posts, false))
  {
  }

  /** `getBlogPostBySlug`. */
  function GetBlogPostBySlug(slug: string): Option<Post> {
    FindBySlug(Catalogue, slug)
  }

  /** `getFeaturedPosts`. */
  function GetFeaturedPosts(): seq<Post> {
    WithFeatured(Catalogue, true)
  }

  /** `getRegularPosts`. */
  function GetRegularPosts(): seq<Post> {
    WithFeatured(Catalogue, false)
  }

  /** `getAllBlogPosts`: the catalogue itself. */
  function GetAllBlogPosts(): (r: seq<Post>)
    ensures r == Catalogue
  {
    Catalogue
  }

  /** The catalogue's slugs are pairwise different. */
  lemma CatalogueSlugsDistinct()
    ensures forall i, j :: 0 <= i < j < |Catalogue| ==> Catalogue[i].slug != Catalogue[j].slug
  {
  }

  /** With distinct slugs every post is found by its own slug. */
  lemma FindOwnSlug(posts: seq<Post>, i: int)
    requires forall a, b :: 0 <= a < b < |posts| ==> posts[a].slug != posts[b].slug
    requires 0 <= i < |posts|
    ensures FindBySlug(posts, posts[i].slug) == Some(posts[i])
  {
    var r := FindBySlug(posts, posts[i].slug);
    var k :| 0 <= k < |posts| && posts[k] == r.value
             && forall j :: 0 <= j < k ==> posts[j].slug != posts[i].slug;
    assert k == i;
  }

  /** Each catalogue post is what its slug looks up. */
  lemma LookupOwnSlug(i: int)
    requires 0 <= i < |Catalogue|
    ensures GetBlogPostBySlug(Catalogue[i].slug) == Some(Catalogue[i])
  {
    var posts := Catalogue;
    CatalogueSlugsDistinct();
    FindOwnSlug(posts, i);
  }

  /** The first post's id is not a slug of the catalogue, so it finds nothing. */
  lemma LookupByIdFails()
    ensures GetBlogPostBySlug("what-is-stable-diffusion") == None
  {
  }

  /** Only the first post is featured; the other three are regular, in order. */
  lemma FeaturedAndRegularPosts()
    ensures GetFeaturedPosts() == [Catalogue[0]]
    ensures GetRegularPosts() == Catalogue[1..]
  {
    var posts := Catalogue;
    var rest := posts[1..];
    assert posts[0].featured && posts == [posts[0]] + rest;
    assert forall i :: 0 <= i < |rest| ==> !rest[i].featured;
    WithFeaturedAll(rest, false);
    var none := WithFeatured(rest, true);
    if none != [] {
      assert none[0] in rest;
    }
  }

  /** A list whose posts all have the wanted flag is its own filter. */
  lemma {:induction false} WithFeaturedAll(posts: seq<Post>, wanted: bool)
    requires forall i :: 0 <= i < |posts| ==> posts[i].featured == wanted
    ensures WithFeatured(posts, wanted) == posts
  {
    if posts != [] {
      WithFeaturedAll(posts[1..], wanted);
    }
  }
}
