/** `src/core/config.rs`: the site configuration, where its posts live, the preview URL of a
    post on the generator's development server, and the detection of the generator and its
    content directory from marker files. Whether a file exists is a parameter. */
module SiteConfig {
  import opened Wrappers
  import opened Text
  import opened Paths

  datatype SsgType = Hugo | Jekyll | Eleventy

  /** The development server each generator starts by default. */
  function DevServerUrl(ssg: SsgType): string {
    match ssg
    case Hugo => "http://localhost:1313"
    case Jekyll => "http://localhost:4000"
    case Eleventy => "http://localhost:8080"
  }

  /** Every generator's server is on localhost, each on its own port: 1313, 4000 and 8080. */
  lemma DevServerUrlsAreLocal(ssg: SsgType)
    ensures StartsWith(DevServerUrl(ssg), "http://localhost:")
    ensures DevServerUrl(ssg)[|"http://localhost:"|..]
      == match ssg case Hugo => "1313" case Jekyll => "4000" case Eleventy => "8080"
    ensures forall other: SsgType :: other != ssg ==> DevServerUrl(other) != DevServerUrl(ssg)
  {
    assert DevServerUrl(Hugo)[17..] == "1313";
    assert DevServerUrl(Jekyll)[17..] == "4000";
    assert DevServerUrl(Eleventy)[17..] == "8080";
  }

  datatype Config = Config(
    siteName: string,
    sitePath: string,
    contentDir: string,
    ssg: SsgType,
    editor: Option<string>,
    notionDatabaseId: Option<string>,
    notionToken: Option<string>)

  /** The configuration used when none has been saved. */
  function DefaultConfig(): Config {
    Config("site", "", "content", Hugo, None, None, None)
  }

  /** `content_path`: the content directory joined onto the site path. */
  function ContentPath(c: Config): Path {
    JoinPath(ParsePath(c.sitePath), ParsePath(c.contentDir))
  }

  /** A relative content directory lies under the site: stripping the site path from the
      content path leaves the content directory. An absolute one is used as it is. */
  lemma ContentPathUnderSite(c: Config)
    ensures |c.contentDir| > 0 && c.contentDir[0] == '/' ==> ContentPath(c) == ParsePath(c.contentDir)
    ensures !(|c.contentDir| > 0 && c.contentDir[0] == '/')
      ==> StripPrefix(ContentPath(c), ParsePath(c.sitePath)) == Some(ParsePath(c.contentDir))
  {
  }

  /** With no saved configuration, posts are looked for in `content` under the working directory. */
  lemma DefaultContentPath()
    ensures ContentPath(DefaultConfig()) == [Named("content")]
    ensures DefaultConfig().ssg == Hugo && DefaultConfig().editor.None?
  {
    var p := [Named("content")];
    assert forall k :: 0 <= k < 7 ==> "content"[k] != '/';
    assert ValidPath(p);
    assert RenderPath(p) == "content";
    ParseRender(p);
    assert Split("", '/') == [""];
    assert ParsePath("") == [];
  }

  /** `preview_url`: the post's path relative to the site, without its extension and with every
      `\` turned into `/`, appended to the server URL; `None` when the post is not under the
      site path. */
  function PreviewUrl(c: Config, postPath: Path): (r: Option<string>)
    ensures r.None? <==> StripPrefix(postPath, ParsePath(c.sitePath)).None?
  {
    match StripPrefix(postPath, ParsePath(c.sitePath))
    case None => None
    case Some(relative) =>
      Some(DevServerUrl(c.ssg) + "/" + Replace(RenderPath(WithoutExtension(relative)), '\\', '/'))
  }

  /** A preview URL is the server URL, a `/`, and a path free of backslashes that names the
      post's location under the site without its extension. */
  lemma PreviewUrlShape(c: Config, postPath: Path)
    requires PreviewUrl(c, postPath).Some?
    ensures var url := PreviewUrl(c, postPath).value;
      var prefix := DevServerUrl(c.ssg) + "/";
      && StartsWith(url, prefix)
      && '\\' !in url[|prefix|..]
      && ParsePath(c.sitePath) + postPath[|ParsePath(c.sitePath)|..] == postPath
      && |url[|prefix|..]| == |RenderPath(WithoutExtension(postPath[|ParsePath(c.sitePath)|..]))|
  {
    var prefix := DevServerUrl(c.ssg) + "/";
    var url := PreviewUrl(c, postPath).value;
    assert url[..|prefix|] == prefix;
  }

  lemma ReplaceAbsent(s: string, from: char, to: char)
    requires from !in s
    ensures Replace(s, from, to) == s
  {
  }

  lemma {:induction false} JoinHasNoChar(parts: seq<string>, sep: char, c: char)
    requires c != sep && forall i :: 0 <= i < |parts| ==> c !in parts[i]
    ensures c !in Join(parts, sep)
  {
    if |parts| > 1 { JoinHasNoChar(parts[1..], sep, c); }
  }

  /** The URL path of a post under the site names the post: read back as a path it is the
      post's path relative to the site, without its extension, when no component holds a `\`. */
  lemma PreviewUrlNamesPost(c: Config, postPath: Path)
    requires PreviewUrl(c, postPath).Some?
    requires var bare := WithoutExtension(postPath[|ParsePath(c.sitePath)|..]);
      ValidPath(bare) && forall i :: 0 <= i < |bare| ==> '\\' !in NameOf(bare[i])
    ensures var url := PreviewUrl(c, postPath).value;
      ParsePath(url[|DevServerUrl(c.ssg) + "/"|..]) == WithoutExtension(postPath[|ParsePath(c.sitePath)|..])
  {
    var relative := postPath[|ParsePath(c.sitePath)|..];
    var bare := WithoutExtension(relative);
    RenderHasNoChar(bare, '\\');
    ReplaceAbsent(RenderPath(bare), '\\', '/');
    ParseRender(bare);
    var prefix := DevServerUrl(c.ssg) + "/";
    assert PreviewUrl(c, postPath).value[|prefix|..] == RenderPath(bare);
  }

  /** A character that is not `/` and occurs in no component does not occur in the rendered path. */
  lemma RenderHasNoChar(p: Path, ch: char)
    requires ch != '/' && forall i :: 0 <= i < |p| ==> ch !in NameOf(p[i])
    ensures ch !in RenderPath(p)
  {
    var off := if |p| > 0 && p[0] == Root then 1 else 0;
    var names := RenderNames(p[off..]);
    forall i | 0 <= i < |names| ensures ch !in names[i] {
      assert names[i] == NameOf(p[i + off]);
    }
    JoinHasNoChar(names, '/', ch);
  }

  /** The site `/srv/blog` served by Hugo previews `/srv/blog/content/posts/hello.md` at
      `http://localhost:1313/content/posts/hello`. */
  lemma PreviewUrlExample()
    ensures var c := Config("blog", "/srv/blog", "content", Hugo, None, None, None);
      PreviewUrl(c, [Root, Named("srv"), Named("blog")] + [Named("content"), Named("posts"), Named("hello.md")])
        == Some("http://localhost:1313" + "/" + "content/posts/hello")
  {
    var site := [Root, Named("srv"), Named("blog")];
    var rest := [Named("content"), Named("posts"), Named("hello.md")];
    var bare := [Named("content"), Named("posts"), Named("hello")];
    ExampleSiteParses();
    ExampleStem();
    ExampleRender();
    ExampleNamesPlain();
    PreviewUrlOf(Config("blog", "/srv/blog", "content", Hugo, None, None, None), site, rest, bare, "content/posts/hello");
  }

  /** The preview URL of a post under the site: the server URL, a `/`, and the text of the
      post's path below the site without its extension, when no component holds a backslash. */
  lemma PreviewUrlOf(c: Config, site: Path, rest: Path, bare: Path, text: string)
    requires ParsePath(c.sitePath) == site && WithoutExtension(rest) == bare && RenderPath(bare) == text
    requires forall i :: 0 <= i < |bare| ==> '\\' !in NameOf(bare[i])
    ensures PreviewUrl(c, site + rest) == Some(DevServerUrl(c.ssg) + "/" + text)
  {
    StripPrefixAppend(site, rest);
    UrlPathOf(rest, bare, text);
  }

  /** No component of the example post's bare path holds a backslash. */
  lemma ExampleNamesPlain()
    ensures var bare := [Named("content"), Named("posts"), Named("hello")];
      forall i :: 0 <= i < |bare| ==> '\\' !in NameOf(bare[i])
  {
    var bare := [Named("content"), Named("posts"), Named("hello")];
    forall i | 0 <= i < |bare| ensures '\\' !in NameOf(bare[i]) {
      var n := NameOf(bare[i]);
      assert n == "content" || n == "posts" || n == "hello";
      assert forall k :: 0 <= k < |n| ==> n[k] != '\\';
    }
  }

  /** The URL path of a post path whose stem-stripped form has no backslash in any component. */
  lemma UrlPathOf(p: Path, q: Path, text: string)
    requires WithoutExtension(p) == q && RenderPath(q) == text
    requires forall i :: 0 <= i < |q| ==> '\\' !in NameOf(q[i])
    ensures Replace(RenderPath(WithoutExtension(p)), '\\', '/') == text
  {
    RenderHasNoChar(q, '\\');
    ReplaceAbsent(text, '\\', '/');
  }

  lemma ExampleSiteParses()
    ensures ParsePath("/srv/blog") == [Root, Named("srv"), Named("blog")]
  {
    var site := [Root, Named("srv"), Named("blog")];
    assert ValidPath(site);
    assert RenderNames(site[1..]) == ["srv", "blog"];
    assert Join(["srv", "blog"], '/') == "srv/blog" by {
      assert ["srv", "blog"][1..] == ["blog"];
    }
    assert RenderPath(site) == "/srv/blog";
    ParseRender(site);
  }

  lemma ExampleStem()
    ensures WithoutExtension([Named("content"), Named("posts"), Named("hello.md")])
      == [Named("content"), Named("posts"), Named("hello")]
  {
    assert LastIndexOf("hello.md", '.') == Some(5);
    assert FileStem("hello.md") == "hello";
  }

  lemma ExampleRender()
    ensures RenderPath([Named("content"), Named("posts"), Named("hello")]) == "content/posts/hello"
  {
    var p := [Named("content"), Named("posts"), Named("hello")];
    assert p[0] != Root;
    assert RenderNames(p) == ["content", "posts", "hello"];
    JoinThree("content", "posts", "hello", '/');
    assert "content" + ['/'] + "posts" + ['/'] + "hello" == "content/posts/hello";
  }

  /** `detect_ssg`: Hugo's markers first, then Jekyll's, then Eleventy's; Hugo when none is
      there. `present(name)` says whether `name` exists in the site directory. */
  function DetectSsg(present: string -> bool): SsgType {
    if present("hugo.toml") || present("hugo.yaml") || present("config.toml") then Hugo
    else if present("_config.yml") then Jekyll
    else if present(".eleventy.js") || present("eleventy.config.js") then Eleventy
    else Hugo
  }

  /** Detection in full: each generator is chosen exactly when its markers are present and no
      marker of a generator tried before it is, Hugo also when there is no marker at all. */
  lemma DetectSsgPriority(present: string -> bool)
    ensures var hugo := present("hugo.toml") || present("hugo.yaml") || present("config.toml");
      var jekyll := present("_config.yml");
      var eleventy := present(".eleventy.js") || present("eleventy.config.js");
      && (DetectSsg(present) == Jekyll <==> !hugo && jekyll)
      && (DetectSsg(present) == Eleventy <==> !hugo && !jekyll && eleventy)
      && (DetectSsg(present) == Hugo <==> hugo || (!jekyll && !eleventy))
  {
  }

  /** `detect_content_dir`: the content directory conventional for the generator. */
  function DetectContentDir(present: string -> bool, ssg: SsgType): string {
    match ssg
    case Hugo => if present("content") then "content" else "content"
    case Jekyll => if present("_posts") then "_posts" else "_posts"
    case Eleventy => if present("posts") then "posts" else if present("src") then "src" else "posts"
  }

  /** Hugo always gets `content` and Jekyll `_posts`, whatever exists; Eleventy gets `src` only
      when `src` exists and `posts` does not, and `posts` otherwise. */
  lemma DetectContentDirChoices(present: string -> bool, ssg: SsgType)
    ensures ssg == Hugo ==> DetectContentDir(present, ssg) == "content"
    ensures ssg == Jekyll ==> DetectContentDir(present, ssg) == "_posts"
    ensures ssg == Eleventy ==>
      DetectContentDir(present, ssg) == (if !present("posts") && present("src") then "src" else "posts")
    ensures forall other: string -> bool :: ssg != Eleventy ==> DetectContentDir(other, ssg) == DetectContentDir(present, ssg)
  {
  }
}
