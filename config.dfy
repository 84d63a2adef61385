/** `MediaType`, `MediaConfig` and `MediaScraper.CONFIGS` (src/myanimelist_scraper/scraper.py). */
module Config {

  datatype MediaType = Manga | Anime

  /** The enum's string value, used as the file-name prefix. */
  function TypeValue(t: MediaType): string {
    match t
    case Manga => "manga"
    case Anime => "anime"
  }

  /**
   * A read-only per-type configuration. `rateLimit` is a float number of
   * seconds in the source; here it is a whole number of abstract time units.
   */
  datatype MediaConfig = MediaConfig(baseUrl: string, itemsPerPage: int, rateLimit: nat)

  const DefaultItemsPerPage := 50
  const DefaultRateLimit := 1

  /** `CONFIGS`: the listing URL per type, with the dataclass defaults for the rest. */
  function Configs(t: MediaType): (c: MediaConfig)
    ensures c.itemsPerPage == DefaultItemsPerPage && c.rateLimit == DefaultRateLimit
  {
    match t
    case Manga => MediaConfig("https://myanimelist.net/topmanga.php", DefaultItemsPerPage, DefaultRateLimit)
    case Anime => MediaConfig("https://myanimelist.net/topanime.php", DefaultItemsPerPage, DefaultRateLimit)
  }
}
