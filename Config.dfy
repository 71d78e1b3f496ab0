/**
 * The default settings of the pipeline (config.py). Values read from the
 * environment are not part of this model; every component uses these
 * defaults.
 */
module Config {

  /** The site the blog posts go to, and the link shared with social posts. */
  const WordpressUrl: string := "https://energo-audit.by"

  const SearchHour: int := 9
  const SearchMinute: int := 0
  const BlogPostHour: int := 10
  const BlogPostMinute: int := 0
  const FacebookPostHour: int := 12
  const FacebookPostMinute: int := 0
  const InstagramPostHour: int := 14
  const InstagramPostMinute: int := 0

  /** At most this many articles go to the blog per run; `0` lifts the cap. */
  const MaxArticlesPerDay: int := 5

  /** The lowest overall score an article may have to be published. */
  const MinArticleScore: real := 7.0

  /** The search phrases, in the order the search stage visits them. */
  const Keywords: seq<string> := [
    "расчет воздухообмена в помещении",
    "как рассчитать кратность воздухообмена",
    "расчет теплопотерь через ограждающие конструкции",
    "теплопотери помещения",
    "расчет теплопотерь онлайн",
    "теплопотери расчет",
    "теплопотери в доме",
    "теплопотери через стены",
    "тепловизор теплый пол",
    "видит ли тепловизор через стены",
    "тепловизор для обследования дома",
    "утечка тепла прибор",
    "поиск протечки воды",
    "обнаружение протечек воды",
    "поиск скрытых утечек воды",
    "испытания вентиляционных систем",
    "проверка дымогенератором",
    "проверка на герметичность гост",
    "герметизация помещения",
    "испытания на герметичность трубопроводов",
    "экспертиза домов перед покупкой",
    "энергоэффективность частных домов"
  ]
}
