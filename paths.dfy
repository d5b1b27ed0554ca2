/** File-system paths as Rust's `Path::components` sees them: an optional root
    followed by named components. Paths are parsed from and rendered to `/`-separated
    text; the extension rules are those of `Path::extension`, `Path::file_stem` and
    `Path::with_extension`. */
module Paths {
  import opened Wrappers
  import opened Text

  datatype Component = Root | Named(name: string)

  type Path = seq<Component>

  /** A name `Path::components` can yield: not empty, without a separator, not `.`. */
  predicate ValidName(n: string) {
    n != "" && n != "." && '/' !in n
  }

  /** A normalized path: the root can only come first, every other component is a valid name. */
  predicate ValidPath(p: Path) {
    forall i :: 0 <= i < |p| ==> if p[i].Root? then i == 0 else ValidName(p[i].name)
  }

  /** The named components of `/`-separated pieces: empty pieces and `.` are dropped. */
  function Names(pieces: seq<string>): (p: Path)
    requires forall i :: 0 <= i < |pieces| ==> '/' !in pieces[i]
    ensures forall i :: 0 <= i < |p| ==> p[i].Named? && ValidName(p[i].name)
  {
    if pieces == [] then []
    else (if pieces[0] == "" || pieces[0] == "." then [] else [Named(pieces[0])]) + Names(pieces[1..])
  }

  /** `PathBuf::from(s).components()`. */
  function ParsePath(s: string): (p: Path)
    ensures ValidPath(p)
    ensures |s| > 0 && s[0] == '/' <==> |p| > 0 && p[0] == Root
  {
    if |s| > 0 && s[0] == '/' then [Root] + Names(Split(s[1..], '/')) else Names(Split(s, '/'))
  }

  function NameOf(c: Component): string {
    match c
    case Root => ""
    case Named(n) => n
  }

  function RenderNames(p: Path): (r: seq<string>)
    ensures |r| == |p| && forall i :: 0 <= i < |p| ==> r[i] == NameOf(p[i])
    ensures forall i :: 0 <= i < |p| && p[i].Named? ==> r[i] == p[i].name
    ensures (forall i :: 0 <= i < |p| ==> p[i].Named? && ValidName(p[i].name))
      ==> forall i :: 0 <= i < |r| ==> '/' !in r[i]
  {
    seq(|p|, i requires 0 <= i < |p| => NameOf(p[i]))
  }

  /** The text of a path, components joined by `/`, a root written as a leading `/`. */
  function RenderPath(p: Path): string {
    if |p| > 0 && p[0] == Root then "/" + Join(RenderNames(p[1..]), '/') else Join(RenderNames(p), '/')
  }

  lemma {:induction false} NamesOfValidNames(p: Path)
    requires forall i :: 0 <= i < |p| ==> p[i].Named? && ValidName(p[i].name)
    ensures Names(RenderNames(p)) == p
  {
    if p != [] {
      assert RenderNames(p)[1..] == RenderNames(p[1..]);
      NamesOfValidNames(p[1..]);
    }
  }

  lemma JoinStartsWithFirst(parts: seq<string>, sep: char)
    requires |parts| >= 1 && parts[0] != ""
    ensures |Join(parts, sep)| > 0 && Join(parts, sep)[0] == parts[0][0]
  {
  }

  /** Splitting the joined names of named components and keeping the names gives them back. */
  lemma NamesSplitJoin(q: Path)
    requires forall i :: 0 <= i < |q| ==> q[i].Named? && ValidName(q[i].name)
    ensures Names(Split(Join(RenderNames(q), '/'), '/')) == q
  {
    if q == [] {
      assert Join(RenderNames(q), '/') == "";
      assert Split("", '/') == [""];
    } else {
      SplitJoin(RenderNames(q), '/');
    }
    NamesOfValidNames(q);
  }

  /** Parsing the rendering of a normalized path gives the path back. */
  lemma ParseRender(p: Path)
    requires ValidPath(p)
    ensures ParsePath(RenderPath(p)) == p
  {
    var s := RenderPath(p);
    if |p| > 0 && p[0] == Root {
      var rest := p[1..];
      forall i | 0 <= i < |rest| ensures rest[i].Named? && ValidName(rest[i].name) {
        assert rest[i] == p[i + 1];
      }
      assert s == "/" + Join(RenderNames(rest), '/');
      assert s[1..] == Join(RenderNames(rest), '/');
      NamesSplitJoin(rest);
      assert p == [Root] + rest;
    } else {
      assert forall i :: 0 <= i < |p| ==> p[i].Named? && ValidName(p[i].name);
      assert s == Join(RenderNames(p), '/');
      if p != [] {
        JoinStartsWithFirst(RenderNames(p), '/');
        assert s[0] != '/';
      }
      NamesSplitJoin(p);
    }
  }

  /** The last position of `c` in `s`. */
  function LastIndexOf(s: string, c: char): (r: Option<nat>)
    ensures r.Some? ==> r.value < |s| && s[r.value] == c
    ensures r.Some? ==> forall j :: r.value < j < |s| ==> s[j] != c
    ensures r.None? ==> c !in s
  {
    if s == [] then None
    else if s[|s| - 1] == c then Some(|s| - 1)
    else LastIndexOf(s[..|s| - 1], c)
  }

  /** `Path::file_name`: the last component when it is a name other than `..`. */
  function FileName(p: Path): Option<string> {
    if |p| > 0 && p[|p| - 1].Named? && p[|p| - 1].name != ".." then Some(p[|p| - 1].name) else None
  }

  /** The extension of a file name: the text after its last `.`, unless that dot is its first character. */
  function FileExtension(name: string): Option<string> {
    if name == ".." then None
    else match LastIndexOf(name, '.')
      case None => None
      case Some(i) => if i == 0 then None else Some(name[i + 1..])
  }

  /** The stem of a file name: the name without its extension and the dot before it. */
  function FileStem(name: string): string {
    if name == ".." then name
    else match LastIndexOf(name, '.')
      case None => name
      case Some(i) => if i == 0 then name else name[..i]
  }

  /** A file name is its stem, a dot and its extension whenever it has one. */
  lemma StemDotExtension(name: string)
    requires FileExtension(name).Some?
    ensures FileStem(name) + "." + FileExtension(name).value == name
    ensures '.' !in FileExtension(name).value
  {
    var i := LastIndexOf(name, '.').value;
    assert name == name[..i] + [name[i]] + name[i + 1..];
  }

  /** `Path::extension`. */
  function Extension(p: Path): Option<string> {
    match FileName(p)
    case None => None
    case Some(n) => FileExtension(n)
  }

  /** `Path::with_extension("")`: the last name replaced by its stem; a path without a file name is kept. */
  function WithoutExtension(p: Path): (r: Path)
    ensures |r| == |p| && (|p| > 0 ==> r[..|r| - 1] == p[..|p| - 1])
  {
    match FileName(p)
    case None => p
    case Some(n) => p[..|p| - 1] + [Named(FileStem(n))]
  }

  /** Removing the extension loses exactly the extension: putting it back restores the file name. */
  lemma WithoutExtensionRestores(p: Path)
    requires Extension(p).Some?
    ensures var r := WithoutExtension(p);
      |r| == |p| && r[..|r| - 1] == p[..|p| - 1]
      && r[|r| - 1] == Named(p[|p| - 1].name[..|p[|p| - 1].name| - |Extension(p).value| - 1])
      && NameOf(r[|r| - 1]) + "." + Extension(p).value == p[|p| - 1].name
  {
    StemDotExtension(p[|p| - 1].name);
  }

  /** A path without extension is left as it is. */
  lemma WithoutExtensionKeepsPlainNames(p: Path)
    requires Extension(p).None?
    ensures WithoutExtension(p) == p
  {
    if FileName(p).Some? {
      var n := FileName(p).value;
      assert FileStem(n) == n;
      assert p[..|p| - 1] + [Named(n)] == p;
    }
  }

  /** `Path::strip_prefix`: what follows `prefix`, compared component by component. */
  function StripPrefix(p: Path, prefix: Path): (r: Option<Path>)
    ensures r.Some? <==> |prefix| <= |p| && p[..|prefix|] == prefix
    ensures r.Some? ==> prefix + r.value == p
  {
    if |prefix| <= |p| && p[..|prefix|] == prefix then Some(p[|prefix|..]) else None
  }

  /** A path stripped of a prefix it was built from gives back the rest. */
  lemma StripPrefixAppend(prefix: Path, rest: Path)
    ensures StripPrefix(prefix + rest, prefix) == Some(rest)
  {
    assert (prefix + rest)[..|prefix|] == prefix;
    assert (prefix + rest)[|prefix|..] == rest;
  }

  /** `Path::join`: an absolute path replaces the base, a relative one is appended to it. */
  function JoinPath(base: Path, p: Path): (r: Path)
    ensures |p| > 0 && p[0] == Root ==> r == p
    ensures !(|p| > 0 && p[0] == Root) ==> |r| == |base| + |p| && r[..|base|] == base && r[|base|..] == p
  {
    if |p| > 0 && p[0] == Root then p else base + p
  }
}
