/** The post record of `src/core/posts.rs` and the frontmatter values it carries. */
module Records {
  import opened Wrappers
  import opened Paths

  /** A frontmatter value as `serde_json::Value` holds it. A number is kept as the text
      `Number::to_string` gives for it. */
  datatype Value =
    | Null
    | Bool(b: bool)
    | Num(text: string)
    | Str(s: string)
    | Arr(items: seq<Value>)
    | Obj(fields: map<string, Value>)

  /** An instant of UTC, in nanoseconds since the epoch (the resolution of `DateTime<Utc>`). */
  type Timestamp = int

  /** One markdown document: where it lives, the fields denormalised from its frontmatter
      at load time, its body, and the frontmatter map itself. */
  datatype Post = Post(
    path: Path,
    title: string,
    date: Option<Timestamp>,
    draft: bool,
    contentType: string,
    categories: seq<string>,
    tags: seq<string>,
    content: string,
    frontmatter: map<string, Value>)

  /** No two posts share a path: a path identifies one post of the collection. */
  predicate UniquePaths(posts: seq<Post>) {
    forall i, j :: 0 <= i < j < |posts| ==> posts[i].path != posts[j].path
  }
}
