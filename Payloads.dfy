/**
 * The JSON-shaped dictionaries the components hand to one another. A field of
 * type `Option` is a key that may be absent (`None`); a key that is present
 * with the JSON value `null` is treated as absent.
 */
module Payloads {
  import opened Common

  /** `analysis['scores']`: six marks on a 0..10 scale. */
  datatype Scores = Scores(
    relevance: Option<real>,
    quality: Option<real>,
    timeliness: Option<real>,
    businessValue: Option<real>,
    uniqueness: Option<real>,
    overall: Option<real>)

  /** The analysis of one article, stored verbatim with it. */
  datatype Analysis = Analysis(
    scores: Option<Scores>,
    keyTopics: seq<string>,
    targetAudience: string,
    adaptationTips: string,
    socialMediaTitle: string)

  /** One element of a search reply's `articles` list: a JSON object, or any other JSON value. */
  datatype Candidate =
    | Candidate(title: Option<string>, description: Option<string>, relevance: Option<string>, sourceType: Option<string>)
    | NotAnObject

  /** The keys of an article dictionary that the generator and the formatters read. */
  datatype ArticleFields = ArticleFields(title: Option<string>, description: Option<string>, content: Option<string>)

  /** A generated blog post. */
  datatype BlogPost = BlogPost(
    title: Option<string>,
    intro: Option<string>,
    body: Option<string>,
    conclusion: Option<string>,
    metaDescription: Option<string>,
    tags: seq<string>)
}
