/** The schema.org `Article` record a story page embeds as JSON-LD. */
module StorySchema {
  import opened Text
  import opened Common
  import SiteConfig

  /** How many UTF-16 code units of the story the description keeps. */
  const DescriptionLength: nat := 200

  datatype Person = Person(name: string, url: Option<string>)
  datatype Organization = Organization(name: string, url: string)

  datatype Article = Article(
    context: string, kind: string, headline: string, description: string,
    author: Person, datePublished: string, publisher: Organization, mainEntityOfPage: string)

  /** `schema` in `StorySchema({title, content, author, datePublished, url})`,
      with the deployment URL setting as `env`. */
  function Schema(env: Option<string>, title: string, content: string, author: Person,
                  datePublished: string, url: string): Article
  {
    Article("https://schema.org", "Article", title, Excerpt(content, DescriptionLength),
            author, datePublished, Organization(SiteConfig.Name, SiteConfig.Url(env)), url)
  }

  /** The description is the longest prefix of the story that fits in 200
      UTF-16 code units (so at most 200 characters), followed by "...", added
      even when the story is shorter; a story that fits is kept whole. The
      headline, author and date are passed through, the publisher is the site
      and the page's id is its URL. */
  lemma SchemaSpec(env: Option<string>, title: string, content: string, author: Person,
                   datePublished: string, url: string)
    ensures var a := Schema(env, title, content, author, datePublished, url);
            var d := a.description;
            var k := |d| - 3;
            && |d| >= 3 && d[k..] == "..." && |d| <= DescriptionLength + 3
            && k <= |content| && d[..k] == content[..k]
            && Utf16Length(d[..k]) <= DescriptionLength
            && (k < |content| ==> Utf16Length(d[..k]) + Utf16Units(content[k]) > DescriptionLength)
            && (Utf16Length(content) <= DescriptionLength ==> d == content + "...")
            && (InBmp(content) && |content| > DescriptionLength
                ==> d == content[..DescriptionLength] + "...")
            && a.headline == title && a.author == author && a.datePublished == datePublished
            && a.publisher == Organization("Spooky Stories", SiteConfig.Url(env))
            && a.mainEntityOfPage == url
  {
    var d := Excerpt(content, DescriptionLength);
    ExcerptSpec(content, DescriptionLength);
    Utf16LengthBounds(d[..|d| - 3]);
    assert d == d[..|d| - 3] + "...";
  }
}
