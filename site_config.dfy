/** The site-wide settings that the sitemap and the structured data read. */
module SiteConfig {
  import opened Common

  const Name: string := "Spooky Stories"

  /** The base URL used when no deployment URL is configured. */
  const DefaultUrl: string := "http://localhost:3000"

  /** `process.env.NEXT_PUBLIC_SITE_URL || "http://localhost:3000"`. */
  function Url(env: Option<string>): (u: string)
    ensures u != []
    ensures env.Some? && env.value != [] ==> u == env.value
    ensures env.None? || env.value == [] ==> u == DefaultUrl
  {
    if env.Some? && env.value != [] then env.value else DefaultUrl
  }
}
