/** `src/core/posts.rs`: splitting a markdown file into its `---`-framed YAML frontmatter and
    its body, shaping the decoded frontmatter into a map, extracting the post fields with
    their defaults, scanning a content tree, and writing a post back.

    The YAML codec and the two date parsers are libraries; they are parameters of the model,
    collected in a `Codec`. */
module Posts {
  import opened Wrappers
  import opened Text
  import opened Paths
  import opened Records
  import opened PostOrder

  /** The `Frontmatter` struct serde decodes the YAML into: the well-known keys, each with its
      default when absent, and every other key in `extra`. */
  datatype Frontmatter = Frontmatter(
    title: string,
    date: Option<string>,
    draft: bool,
    contentType: string,
    categories: seq<string>,
    category: Option<string>,
    tags: seq<string>,
    extra: map<string, Value>)

  /** The keys the struct captures; `#[serde(flatten)]` sends only the others to `extra`. */
  const StructKeys: set<string> := {"title", "date", "draft", "content_type", "categories", "category", "tags"}

  predicate WellFormed(fm: Frontmatter) {
    fm.extra.Keys !! StructKeys
  }

  /** The libraries the module calls: `serde_yaml::from_str` into `Frontmatter`,
      `serde_yaml::to_string` of a map, `DateTime::parse_from_rfc3339` (nanoseconds since
      the epoch) and `NaiveDate::parse_from_str(s, "%Y-%m-%d")` (days since the epoch). */
  datatype Codec = Codec(
    decodeYaml: string -> Option<Frontmatter>,
    encodeYaml: map<string, Value> -> Option<string>,
    parseRfc3339: string -> Option<Timestamp>,
    parseCalendarDate: string -> Option<int>)

  /** Whatever the decoder yields keeps the struct's keys out of `extra`, as serde does. */
  ghost predicate DecoderSound(codec: Codec) {
    forall text :: codec.decodeYaml(text).Some? ==> WellFormed(codec.decodeYaml(text).value)
  }

  datatype PostError = ReadFailed(path: Path) | DecodeFailed | EncodeFailed | WriteFailed(path: Path)

  // ---------------------------------------------------------------- framing

  /** What `splitn(3, "---")` finds in a text that starts with `---`: the text between the
      first two `---` and everything after the second; `Unframed` when the text does not start
      with `---` or has no second `---`. */
  datatype Framing = Unframed | Framed(yaml: string, rest: string)

  function Frame(content: string): (r: Framing)
    ensures r.Framed? ==> content == "---" + r.yaml + "---" + r.rest
    ensures !StartsWith(content, "---") ==> r == Unframed
  {
    if !StartsWith(content, "---") then Unframed
    else match FindFrom(content, "---", 3)
      case None => Unframed
      case Some(j) =>
        assert content == content[..3] + content[3..j] + content[j..j + 3] + content[j + 3..];
        Framed(content[3..j], content[j + 3..])
  }

  /** The text between the two markers holds no `---` and does not end with `-`: the second
      marker is the first `---` after the opening one. */
  predicate Delimited(yaml: string) {
    !Contains(yaml, "---") && (yaml == [] || yaml[|yaml| - 1] != '-')
  }

  /** Framing finds markers only where they are: a framed text has a delimited frontmatter. */
  lemma FrameSound(content: string)
    requires Frame(content).Framed?
    ensures Delimited(Frame(content).yaml)
  {
    var j := FindFrom(content, "---", 3).value;
    var yaml := content[3..j];
    forall i: nat ensures !OccursAt(yaml, "---", i) {
      if i + 3 <= |yaml| {
        assert yaml[i..i + 3] == content[3 + i..3 + i + 3];
        assert !OccursAt(content, "---", 3 + i);
      }
    }
    ContainsIffOccurs(yaml, "---");
    if yaml != [] {
      assert !OccursAt(content, "---", j - 1);
      assert content[j - 1..j + 2] == [content[j - 1]] + content[j..j + 2];
    }
  }

  /** A frame of delimited frontmatter is taken apart into exactly its pieces. */
  lemma FrameComplete(yaml: string, rest: string)
    requires Delimited(yaml)
    ensures Frame("---" + yaml + "---" + rest) == Framed(yaml, rest)
  {
    var content := "---" + yaml + "---" + rest;
    var j := 3 + |yaml|;
    assert content[..3] == "---";
    assert content[3..j] == yaml;
    assert content[j..j + 3] == "---";
    assert content[j + 3..] == rest;
    forall i: nat | 3 <= i < j ensures !OccursAt(content, "---", i) {
      NoMarkerInside(content, yaml, i - 3);
    }
    FindFromLeftmost(content, "---", 3, j);
  }

  /** A marker starting inside a delimited frontmatter would have to lie inside it, or end on
      its last character. */
  lemma NoMarkerInside(content: string, yaml: string, k: nat)
    requires Delimited(yaml) && k < |yaml|
    requires |content| >= 3 + |yaml| && content[3..3 + |yaml|] == yaml
    ensures !OccursAt(content, "---", 3 + k)
  {
    if k + 3 <= |yaml| {
      SliceInside(content, 3, 3 + |yaml|, k, 3);
      ContainsIffOccurs(yaml, "---");
      assert !OccursAt(yaml, "---", k);
      assert content[3 + k..3 + k + 3] == yaml[k..k + 3];
    } else if 3 + k + 3 <= |content| {
      var last := |yaml| - 1;
      assert content[3 + last] == yaml[last] != '-';
      assert content[3 + k..3 + k + 3][last - k] == content[3 + last];
      assert "---"[last - k] == '-';
      assert content[3 + k..3 + k + 3] != "---";
    }
  }

  // ---------------------------------------------------------------- the frontmatter map

  /** Each string as a `Value::String`, in order. */
  function Strs(xs: seq<string>): (r: seq<Value>)
    ensures |r| == |xs| && forall i :: 0 <= i < |xs| ==> r[i] == Str(xs[i])
  {
    seq(|xs|, i requires 0 <= i < |xs| => Str(xs[i]))
  }

  /** The map the well-known fields are inserted into, one `insert` at a time. */
  function KnownEntries(fm: Frontmatter): map<string, Value> {
    var m0 := map["title" := Str(fm.title)];
    var m1 := if fm.date.Some? then m0["date" := Str(fm.date.value)] else m0;
    var m2 := m1["draft" := Bool(fm.draft)]["content_type" := Str(fm.contentType)];
    var m3 := if fm.categories != [] then m2["categories" := Arr(Strs(fm.categories))] else m2;
    if fm.tags != [] then m3["tags" := Arr(Strs(fm.tags))] else m3
  }

  /** The frontmatter map: the well-known fields, then every extra key inserted over them. */
  function Shaped(fm: Frontmatter): map<string, Value> {
    KnownEntries(fm) + fm.extra
  }

  /** What the shaped map holds: `title`, `draft` and `content_type` always, with their struct
      types; `date` exactly when one was given; `categories` and `tags` exactly when non-empty,
      as string arrays in order; each extra key with its value; and nothing else, so a
      singular `category` is dropped. */
  lemma ShapedContents(fm: Frontmatter)
    requires WellFormed(fm)
    ensures var m := Shaped(fm);
      && m.Keys == {"title", "draft", "content_type"}
           + (if fm.date.Some? then {"date"} else {})
           + (if fm.categories != [] then {"categories"} else {})
           + (if fm.tags != [] then {"tags"} else {})
           + fm.extra.Keys
      && m["title"] == Str(fm.title)
      && m["draft"] == Bool(fm.draft)
      && m["content_type"] == Str(fm.contentType)
      && (fm.date.Some? ==> m["date"] == Str(fm.date.value))
      && (fm.categories != [] ==> m["categories"] == Arr(Strs(fm.categories)))
      && (fm.tags != [] ==> m["tags"] == Arr(Strs(fm.tags)))
      && (forall k :: k in fm.extra ==> m[k] == fm.extra[k])
      && "category" !in m
  {
    assert "category" in StructKeys && "title" in StructKeys && "draft" in StructKeys;
    assert "content_type" in StructKeys && "date" in StructKeys;
    assert "categories" in StructKeys && "tags" in StructKeys;
  }

  /** `parse_frontmatter`: the frontmatter map and the body of a file's text. Without a frame
      the map is empty and the body is the whole text; with one the body is the trimmed text
      after the second marker. */
  function Parsed(content: string, codec: Codec): Result<(map<string, Value>, string), PostError> {
    match Frame(content)
    case Unframed => Ok((map[], content))
    case Framed(yaml, rest) =>
      match codec.decodeYaml(yaml)
      case None => Err(DecodeFailed)
      case Some(fm) => Ok((Shaped(fm), Trim(rest)))
  }

  /** `parse_frontmatter` as the source runs it: inserts into a map that starts empty, the
      extra fields in a loop. */
  method ParseFrontmatter(content: string, codec: Codec) returns (r: Result<(map<string, Value>, string), PostError>)
    ensures r == Parsed(content, codec)
  {
    var framing := Frame(content);
    if framing.Unframed? {
      return Ok((map[], content));
    }
    var decoded := codec.decodeYaml(framing.yaml);
    if decoded.None? {
      return Err(DecodeFailed);
    }
    var fm := decoded.value;
    var body := Trim(framing.rest);
    var m: map<string, Value> := map[];
    m := m["title" := Str(fm.title)];
    if fm.date.Some? {
      m := m["date" := Str(fm.date.value)];
    }
    m := m["draft" := Bool(fm.draft)];
    m := m["content_type" := Str(fm.contentType)];
    if fm.categories != [] {
      m := m["categories" := Arr(Strs(fm.categories))];
    }
    if fm.tags != [] {
      m := m["tags" := Arr(Strs(fm.tags))];
    }
    assert m == KnownEntries(fm);
    m := InsertAll(m, fm.extra);
    return Ok((m, body));
  }

  /** `for (key, value) in extra { map.insert(key, value) }`: every entry of `extra` put into
      `base`, over any value `base` held for its key. */
  method InsertAll(base: map<string, Value>, extra: map<string, Value>) returns (m: map<string, Value>)
    ensures m == base + extra
  {
    m := base;
    var pending := extra.Keys;
    while pending != {}
      invariant pending <= extra.Keys
      invariant m.Keys == base.Keys + (extra.Keys - pending)
      invariant forall k :: k in m ==> m[k] == if k in extra && k !in pending then extra[k] else base[k]
      decreases |pending|
    {
      var k :| k in pending;
      m := m[k := extra[k]];
      pending := pending - {k};
    }
  }

  /** Text that does not start with `---`, or holds no second `---`, is all body and no map. */
  lemma UnframedIsAllBody(content: string, codec: Codec)
    requires !StartsWith(content, "---") || FindFrom(content, "---", 3).None?
    ensures Parsed(content, codec) == Ok((map[], content))
  {
  }

  /** A framed text whose frontmatter the decoder rejects is an error, never a post. */
  lemma UndecodableIsError(content: string, codec: Codec)
    requires Frame(content).Framed? && codec.decodeYaml(Frame(content).yaml).None?
    ensures Parsed(content, codec) == Err(DecodeFailed)
  {
  }

  // ---------------------------------------------------------------- reading a post

  /** `Iterator::filter_map(as_str)`: the strings of an array, in order, other values skipped. */
  function StringsOf(items: seq<Value>): (r: seq<string>)
    ensures |r| <= |items|
    ensures forall x :: x in r ==> Str(x) in items
  {
    if items == [] then []
    else (if items[0].Str? then [items[0].s] else []) + StringsOf(items[1..])
  }

  /** Reading the strings back out of a string array gives the strings. */
  lemma {:induction false} StringsOfStrs(xs: seq<string>)
    ensures StringsOf(Strs(xs)) == xs
  {
    if xs != [] {
      assert Strs(xs)[1..] == Strs(xs[1..]);
      StringsOfStrs(xs[1..]);
    }
  }

  /** Nanoseconds in a calendar day. */
  const NanosPerDay := 86_400_000_000_000

  /** The date of a post: RFC 3339 first, then a `YYYY-MM-DD` calendar date taken at midnight
      UTC, otherwise no date at all (never an error). */
  function ParseDate(s: string, codec: Codec): (r: Option<Timestamp>)
    ensures r.Some? <==> codec.parseRfc3339(s).Some? || codec.parseCalendarDate(s).Some?
    ensures codec.parseRfc3339(s).Some? ==> r == codec.parseRfc3339(s)
    ensures codec.parseRfc3339(s).None? && codec.parseCalendarDate(s).Some?
      ==> r == Some(codec.parseCalendarDate(s).value * NanosPerDay)
  {
    match codec.parseRfc3339(s)
    case Some(t) => Some(t)
    case None =>
      match codec.parseCalendarDate(s)
      case Some(days) => Some(days * NanosPerDay)
      case None => None
  }

  function StringField(m: map<string, Value>, key: string, default: string): string {
    if key in m && m[key].Str? then m[key].s else default
  }

  function StringListField(m: map<string, Value>, key: string): seq<string> {
    if key in m && m[key].Arr? then StringsOf(m[key].items) else []
  }

  /** `read_post`: the file's text (`None` when it cannot be read) turned into a post whose
      fields are taken from the frontmatter map, each with its default. */
  function ReadPost(path: Path, text: Option<string>, codec: Codec): (r: Result<Post, PostError>)
    ensures text.None? ==> r == Err(ReadFailed(path))
    ensures r.Ok? ==> r.value.path == path
  {
    match text
    case None => Err(ReadFailed(path))
    case Some(content) =>
      match Parsed(content, codec)
      case Err(e) => Err(e)
      case Ok((m, body)) =>
        Ok(Post(
          path,
          StringField(m, "title", "Untitled"),
          if "date" in m && m["date"].Str? then ParseDate(m["date"].s, codec) else None,
          "draft" in m && m["draft"].Bool? && m["draft"].b,
          StringField(m, "content_type", ""),
          StringListField(m, "categories"),
          StringListField(m, "tags"),
          body,
          m))
  }

  /** A file without frontmatter becomes an untitled, undated, published post whose body is the
      whole text. */
  lemma ReadUnframed(path: Path, content: string, codec: Codec)
    requires Frame(content).Unframed?
    ensures ReadPost(path, Some(content), codec)
      == Ok(Post(path, "Untitled", None, false, "", [], [], content, map[]))
  {
  }

  /** A file with decodable frontmatter becomes a post whose fields are those the YAML gave,
      whose map is the shaped frontmatter and whose body is trimmed. */
  lemma ReadFramed(path: Path, content: string, codec: Codec)
    requires Frame(content).Framed?
    requires codec.decodeYaml(Frame(content).yaml).Some?
    requires WellFormed(codec.decodeYaml(Frame(content).yaml).value)
    ensures var fm := codec.decodeYaml(Frame(content).yaml).value;
      ReadPost(path, Some(content), codec) == Ok(Post(
        path, fm.title,
        if fm.date.Some? then ParseDate(fm.date.value, codec) else None,
        fm.draft, fm.contentType, fm.categories, fm.tags,
        Trim(Frame(content).rest), Shaped(fm)))
  {
    var fm := codec.decodeYaml(Frame(content).yaml).value;
    assert Parsed(content, codec) == Ok((Shaped(fm), Trim(Frame(content).rest)));
    ShapedFields(fm);
  }

  /** The fields `read_post` takes from a shaped map are those of the struct it was shaped from. */
  lemma ShapedFields(fm: Frontmatter)
    requires WellFormed(fm)
    ensures var m := Shaped(fm);
      && StringField(m, "title", "Untitled") == fm.title
      && ("date" in m && m["date"].Str? <==> fm.date.Some?)
      && (fm.date.Some? ==> m["date"].s == fm.date.value)
      && ("draft" in m && m["draft"].Bool? && m["draft"].b) == fm.draft
      && StringField(m, "content_type", "") == fm.contentType
      && StringListField(m, "categories") == fm.categories
      && StringListField(m, "tags") == fm.tags
  {
    ShapedContents(fm);
    ListFieldReadsBack(Shaped(fm), "categories", fm.categories);
    ListFieldReadsBack(Shaped(fm), "tags", fm.tags);
  }

  /** A list field reads back as the list it was written from: an array of its strings when
      non-empty, no entry when empty. */
  lemma ListFieldReadsBack(m: map<string, Value>, key: string, xs: seq<string>)
    requires xs != [] ==> key in m && m[key] == Arr(Strs(xs))
    requires xs == [] ==> key !in m
    ensures StringListField(m, key) == xs
  {
    StringsOfStrs(xs);
  }

  /** The body of a loaded post that had frontmatter is already trimmed. */
  lemma FramedBodyIsTrimmed(path: Path, content: string, codec: Codec)
    requires Frame(content).Framed? && ReadPost(path, Some(content), codec).Ok?
    ensures Trim(ReadPost(path, Some(content), codec).value.content) == ReadPost(path, Some(content), codec).value.content
  {
    var rest := Frame(content).rest;
    assert Parsed(content, codec).Ok?;
    assert Parsed(content, codec).value.1 == Trim(rest);
    assert ReadPost(path, Some(content), codec).value.content == Trim(rest);
    TrimIdempotent(rest);
  }

  // ---------------------------------------------------------------- scanning

  /** `Path::extension` is exactly `md` or `markdown`. */
  predicate IsMarkdown(path: Path) {
    Extension(path) == Some("md") || Extension(path) == Some("markdown")
  }

  /** One entry of the directory walk: its path, whether it is a regular file, and its text
      (`None` when reading it fails). */
  datatype Entry = Entry(path: Path, isFile: bool, text: Option<string>)

  /** The post an entry contributes: only a markdown file that reads and parses does. */
  function Kept(e: Entry, codec: Codec): (r: Option<Post>)
    ensures r.Some? ==> e.isFile && IsMarkdown(e.path) && ReadPost(e.path, e.text, codec) == Ok(r.value)
    ensures r.None? ==> !e.isFile || !IsMarkdown(e.path) || ReadPost(e.path, e.text, codec).Err?
  {
    if e.isFile && IsMarkdown(e.path) then
      match ReadPost(e.path, e.text, codec)
      case Ok(p) => Some(p)
      case Err(_) => None
    else None
  }

  /** The posts of the walk in walk order, before sorting. */
  function Loaded(entries: seq<Entry>, codec: Codec): seq<Post> {
    if entries == [] then []
    else
      var last := entries[|entries| - 1];
      Loaded(entries[..|entries| - 1], codec) + (if Kept(last, codec).Some? then [Kept(last, codec).value] else [])
  }

  /** `scan_posts`: nothing when the content directory does not exist; otherwise the kept posts,
      newest first. */
  function Scanned(rootExists: bool, entries: seq<Entry>, codec: Codec): seq<Post> {
    if rootExists then SortPosts(DateDesc, Loaded(entries, codec)) else []
  }

  /** `scan_posts` as the source runs it: a loop pushing each kept post, then the sort. */
  method ScanPosts(rootExists: bool, entries: seq<Entry>, codec: Codec) returns (posts: seq<Post>)
    ensures posts == Scanned(rootExists, entries, codec)
  {
    if !rootExists {
      return [];
    }
    posts := [];
    var i := 0;
    while i < |entries|
      invariant 0 <= i <= |entries|
      invariant posts == Loaded(entries[..i], codec)
    {
      var e := entries[i];
      if e.isFile && IsMarkdown(e.path) {
        var read := ReadPost(e.path, e.text, codec);
        if read.Ok? {
          posts := posts + [read.value];
        }
      }
      assert entries[..i + 1][..i] == entries[..i];
      i := i + 1;
    }
    assert entries[..|entries|] == entries;
    posts := SortPosts(DateDesc, posts);
  }

  lemma {:induction false} LoadedFromEntries(entries: seq<Entry>, codec: Codec)
    ensures forall p :: p in Loaded(entries, codec) ==> exists i :: 0 <= i < |entries| && Kept(entries[i], codec) == Some(p)
  {
    if entries != [] {
      var init := entries[..|entries| - 1];
      var last := Kept(entries[|entries| - 1], codec);
      LoadedFromEntries(init, codec);
      assert Loaded(entries, codec) == Loaded(init, codec) + (if last.Some? then [last.value] else []);
      forall p | p in Loaded(entries, codec) ensures exists i :: 0 <= i < |entries| && Kept(entries[i], codec) == Some(p) {
        if p in Loaded(init, codec) {
          var i :| 0 <= i < |init| && Kept(init[i], codec) == Some(p);
          assert entries[i] == init[i];
        }
      }
    }
  }

  lemma {:induction false} EntriesInLoaded(entries: seq<Entry>, codec: Codec)
    ensures forall i :: 0 <= i < |entries| && Kept(entries[i], codec).Some? ==> Kept(entries[i], codec).value in Loaded(entries, codec)
  {
    if entries != [] {
      var init := entries[..|entries| - 1];
      var last := Kept(entries[|entries| - 1], codec);
      EntriesInLoaded(init, codec);
      assert Loaded(entries, codec) == Loaded(init, codec) + (if last.Some? then [last.value] else []);
      forall i | 0 <= i < |entries| && Kept(entries[i], codec).Some? ensures Kept(entries[i], codec).value in Loaded(entries, codec) {
        if i < |init| {
          assert entries[i] == init[i];
          assert Kept(init[i], codec).value in Loaded(init, codec);
        } else {
          assert Kept(entries[i], codec) == last;
        }
      }
    }
  }

  /** The scan holds exactly the posts of the entries kept: markdown files that read and parse. */
  lemma ScannedIffKept(entries: seq<Entry>, codec: Codec)
    ensures forall p :: p in Scanned(true, entries, codec) <==> exists i :: 0 <= i < |entries| && Kept(entries[i], codec) == Some(p)
  {
    LoadedFromEntries(entries, codec);
    EntriesInLoaded(entries, codec);
    var loaded := Loaded(entries, codec);
    SortPostsPermutes(DateDesc, loaded);
    assert forall p :: p in Scanned(true, entries, codec) <==> p in multiset(loaded);
  }

  /** The scan lists every dated post before every undated one, newest first. */
  lemma ScannedNewestFirst(rootExists: bool, entries: seq<Entry>, codec: Codec)
    ensures var s := Scanned(rootExists, entries, codec);
      && (forall i, j :: 0 <= i < j < |s| && s[i].date.None? ==> s[j].date.None?)
      && (forall i, j :: 0 <= i < j < |s| && s[j].date.Some? ==> s[i].date.Some? && s[j].date.value <= s[i].date.value)
  {
    SortPostsSorted(DateDesc, Loaded(entries, codec));
    DateDescOrder(Scanned(rootExists, entries, codec));
  }

  /** A walk that visits no path twice gives posts with distinct paths. */
  lemma {:induction false} LoadedUniquePaths(entries: seq<Entry>, codec: Codec)
    requires forall i, j :: 0 <= i < j < |entries| ==> entries[i].path != entries[j].path
    ensures UniquePaths(Loaded(entries, codec))
  {
    if entries != [] {
      var init := entries[..|entries| - 1];
      var last := entries[|entries| - 1];
      LoadedUniquePaths(init, codec);
      LoadedFromEntries(init, codec);
      var l := Loaded(init, codec);
      forall k | 0 <= k < |l| ensures Kept(last, codec).Some? ==> l[k].path != last.path {
        var i :| 0 <= i < |init| && Kept(init[i], codec) == Some(l[k]);
        assert init[i] == entries[i];
      }
    }
  }

  lemma {:induction false} InsertKeepsUniquePaths(mode: SortMode, x: Post, s: seq<Post>)
    requires UniquePaths(s) && forall y :: y in s ==> y.path != x.path
    ensures UniquePaths(Insert(mode, x, s))
  {
    if s != [] && !Le(mode, x, s[0]) {
      InsertKeepsUniquePaths(mode, x, s[1..]);
      var t := Insert(mode, x, s[1..]);
      InsertPermutes(mode, x, s[1..]);
      forall k | 0 <= k < |t| ensures t[k].path != s[0].path {
        assert t[k] in multiset(t);
        if t[k] != x { assert t[k] in s[1..]; }
      }
    }
  }

  lemma {:induction false} SortKeepsUniquePaths(mode: SortMode, s: seq<Post>)
    requires UniquePaths(s)
    ensures UniquePaths(SortPosts(mode, s))
  {
    if s != [] {
      SortKeepsUniquePaths(mode, s[1..]);
      var t := SortPosts(mode, s[1..]);
      SortPostsPermutes(mode, s[1..]);
      forall y | y in t ensures y.path != s[0].path {
        assert y in multiset(t);
        var k :| 0 <= k < |s[1..]| && s[1..][k] == y;
        assert s[k + 1] == y;
      }
      InsertKeepsUniquePaths(mode, s[0], t);
    }
  }

  /** No two scanned posts share a path when the walk visits each path once. */
  lemma ScannedUniquePaths(rootExists: bool, entries: seq<Entry>, codec: Codec)
    requires forall i, j :: 0 <= i < j < |entries| ==> entries[i].path != entries[j].path
    ensures UniquePaths(Scanned(rootExists, entries, codec))
  {
    LoadedUniquePaths(entries, codec);
    SortKeepsUniquePaths(DateDesc, Loaded(entries, codec));
  }

  // ---------------------------------------------------------------- saving

  /** The text `save_post` writes: a `---` line, the trimmed YAML, a `---` line, an empty line,
      then the body. */
  function SavedText(yaml: string, content: string): string {
    "---\n" + Trim(yaml) + "\n---\n\n" + content
  }

  /** `save_post`: the text written to the post's path, or why nothing was written. */
  function Saved(post: Post, codec: Codec, writeOk: bool): Result<string, PostError> {
    match codec.encodeYaml(post.frontmatter)
    case None => Err(EncodeFailed)
    case Some(yaml) => if writeOk then Ok(SavedText(yaml, post.content)) else Err(WriteFailed(post.path))
  }

  lemma SavedTextIsJoinedLines(yaml: string, content: string)
    ensures Join(["---", Trim(yaml), "---"], '\n') + "\n\n" + content == SavedText(yaml, content)
  {
    JoinThree("---", Trim(yaml), "---", '\n');
  }

  /** `save_post` as the source runs it: the lines of the frame pushed one by one and joined. */
  method SavePost(post: Post, codec: Codec, writeOk: bool) returns (r: Result<string, PostError>)
    ensures r == Saved(post, codec, writeOk)
  {
    var lines := ["---"];
    var encoded := codec.encodeYaml(post.frontmatter);
    if encoded.None? {
      return Err(EncodeFailed);
    }
    lines := lines + [Trim(encoded.value)];
    lines := lines + ["---"];
    var text := Join(lines, '\n') + "\n\n" + post.content;
    assert lines == ["---", Trim(encoded.value), "---"];
    SavedTextIsJoinedLines(encoded.value, post.content);
    if !writeOk {
      return Err(WriteFailed(post.path));
    }
    return Ok(text);
  }

  /** The frontmatter of a saved text, as the decoder sees it on the next load. */
  lemma SavedFrameIsDelimited(t: string)
    requires !Contains(t, "---")
    ensures Delimited("\n" + t + "\n")
  {
    var y := "\n" + t + "\n";
    forall i: nat ensures !OccursAt(y, "---", i) {
      NoMarkerBetweenBreaks(t, i);
    }
    ContainsIffOccurs(y, "---");
  }

  lemma NoMarkerBetweenBreaks(t: string, i: nat)
    requires !Contains(t, "---")
    ensures !OccursAt("\n" + t + "\n", "---", i)
  {
    var y := "\n" + t + "\n";
    if i + 3 <= |y| {
      if i == 0 {
        assert y[i..i + 3][0] == y[0] == '\n';
      } else if i + 3 == |y| {
        assert y[i..i + 3][2] == y[|y| - 1] == '\n';
      } else {
        assert y[1..|y| - 1] == t;
        SliceInside(y, 1, |y| - 1, i - 1, 3);
        ContainsIffOccurs(t, "---");
        assert !OccursAt(t, "---", i - 1);
      }
    }
  }

  /** What `save_post` writes parses back: the decoder is handed the trimmed YAML between two
      line breaks, and the body comes back trimmed, provided the YAML holds no `---`. */
  lemma SaveThenParse(yaml: string, content: string, codec: Codec)
    requires !Contains(Trim(yaml), "---")
    ensures Frame(SavedText(yaml, content)) == Framed("\n" + Trim(yaml) + "\n", "\n\n" + content)
    ensures Parsed(SavedText(yaml, content), codec)
      == match codec.decodeYaml("\n" + Trim(yaml) + "\n")
         case None => Err(DecodeFailed)
         case Some(fm) => Ok((Shaped(fm), Trim(content)))
  {
    SavedFrame(yaml, content);
    TrimSkipsLeadingWhitespace("\n\n", content);
  }

  /** The saved text frames back to the trimmed YAML between two line breaks. */
  lemma SavedFrame(yaml: string, content: string)
    requires !Contains(Trim(yaml), "---")
    ensures Frame(SavedText(yaml, content)) == Framed("\n" + Trim(yaml) + "\n", "\n\n" + content)
  {
    var y := "\n" + Trim(yaml) + "\n";
    SavedFrameIsDelimited(Trim(yaml));
    assert SavedText(yaml, content) == "---" + y + "---" + ("\n\n" + content);
    FrameComplete(y, "\n\n" + content);
  }

  /** Saving then loading a post again gives back its body, trimmed; a body that was loaded
      from framed text is therefore unchanged by a save and a reload. */
  lemma SaveThenReload(post: Post, codec: Codec)
    requires codec.encodeYaml(post.frontmatter).Some?
    requires !Contains(Trim(codec.encodeYaml(post.frontmatter).value), "---")
    requires codec.decodeYaml("\n" + Trim(codec.encodeYaml(post.frontmatter).value) + "\n").Some?
    ensures var text := Saved(post, codec, true).value;
      && ReadPost(post.path, Some(text), codec).Ok?
      && ReadPost(post.path, Some(text), codec).value.content == Trim(post.content)
      && (Trim(post.content) == post.content ==> ReadPost(post.path, Some(text), codec).value.content == post.content)
  {
    SaveThenParse(codec.encodeYaml(post.frontmatter).value, post.content, codec);
  }

  /** A singular `category` key never reaches the map, so it is lost on load and on the save
      that follows. */
  lemma CategoryIsDropped(content: string, codec: Codec)
    requires DecoderSound(codec)
    requires Parsed(content, codec).Ok?
    ensures "category" !in Parsed(content, codec).value.0
  {
    if Frame(content).Framed? {
      ShapedContents(codec.decodeYaml(Frame(content).yaml).value);
    }
  }
}
