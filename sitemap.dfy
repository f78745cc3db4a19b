/** `sitemap()`: the two fixed pages followed by one entry per public story. */
module Sitemap {
  import opened Common
  import SiteConfig

  datatype Frequency = Daily | Weekly | Monthly

  /** When an entry was last modified: the time the sitemap is built, or a
      story's `updated_at`. */
  datatype Modified = BuiltAt | UpdatedAt(stamp: string)

  /** One sitemap entry; the priority is in tenths. */
  datatype Route = Route(url: string, lastModified: Modified, changeFrequency: Frequency,
                         priorityTenths: nat)

  /** A row of `select('slug, updated_at')`. */
  datatype StoryForSitemap = StoryForSitemap(slug: string, updatedAt: string)

  const StoryPrefix: string := "/story/"

  function StoryUrl(siteUrl: string, slug: string): string
  {
    siteUrl + StoryPrefix + slug
  }

  /** A story's address gives its slug back, so different slugs get
      different addresses. */
  lemma StoryUrlInverse(siteUrl: string, slug: string)
    ensures var u := StoryUrl(siteUrl, slug);
            && |u| >= |siteUrl| + |StoryPrefix|
            && u[..|siteUrl| + |StoryPrefix|] == siteUrl + StoryPrefix
            && u[|siteUrl| + |StoryPrefix|..] == slug
  {
  }

  lemma StoryUrlInjective(siteUrl: string, a: string, b: string)
    ensures StoryUrl(siteUrl, a) == StoryUrl(siteUrl, b) <==> a == b
  {
    StoryUrlInverse(siteUrl, a);
    StoryUrlInverse(siteUrl, b);
  }

  function StoryRoute(siteUrl: string, s: StoryForSitemap): Route
  {
    Route(StoryUrl(siteUrl, s.slug), UpdatedAt(s.updatedAt), Weekly, 6)
  }

  /** `stories.map(...)`: one entry per story, in order, at the story's
      page under the site, modified at its `updated_at`, weekly, priority 0.6. */
  function StoryRoutes(siteUrl: string, stories: seq<StoryForSitemap>): (r: seq<Route>)
    ensures |r| == |stories|
    ensures forall i :: 0 <= i < |stories| ==>
              && r[i].url == siteUrl + "/story/" + stories[i].slug
              && r[i].lastModified == UpdatedAt(stories[i].updatedAt)
              && r[i].changeFrequency == Weekly
              && r[i].priorityTenths == 6
  {
    seq(|stories|, i requires 0 <= i < |stories| => StoryRoute(siteUrl, stories[i]))
  }

  /** `sitemap()`, with the deployment URL setting as `env` and the query's
      `data` as `stories` (absent when the query returned none). */
  method Build(env: Option<string>, stories: Option<seq<StoryForSitemap>>) returns (routes: seq<Route>)
    ensures var site := SiteConfig.Url(env);
            var n := if stories.Some? then |stories.value| else 0;
            && |routes| == 2 + n
            && routes[0] == Route(site, BuiltAt, Daily, 10)
            && routes[1] == Route(site + "/write", BuiltAt, Monthly, 8)
            && (stories.Some? ==> forall i :: 0 <= i < n ==>
                  routes[2 + i].url == StoryUrl(site, stories.value[i].slug)
                  && routes[2 + i].lastModified == UpdatedAt(stories.value[i].updatedAt)
                  && routes[2 + i].changeFrequency == Weekly
                  && routes[2 + i].priorityTenths == 6)
  {
    var site := SiteConfig.Url(env);
    routes := [Route(site, BuiltAt, Daily, 10), Route(site + "/write", BuiltAt, Monthly, 8)];
    if stories.Some? {
      var storyRoutes := StoryRoutes(site, stories.value);
      routes := routes + storyRoutes;
      assert forall i :: 0 <= i < |storyRoutes| ==> routes[2 + i] == storyRoutes[i];
    }
  }

  /** Every entry's address starts with the site's base URL. */
  lemma UrlsUnderSite(siteUrl: string, stories: seq<StoryForSitemap>)
    ensures forall r :: r in StoryRoutes(siteUrl, stories) ==>
              |r.url| >= |siteUrl| && r.url[..|siteUrl|] == siteUrl
  {
    var rs := StoryRoutes(siteUrl, stories);
    forall r | r in rs ensures |r.url| >= |siteUrl| && r.url[..|siteUrl|] == siteUrl {
      var i :| 0 <= i < |rs| && rs[i] == r;
      StoryUrlInverse(siteUrl, stories[i].slug);
    }
  }
}
