/** The session state of the terminal interface in `src/tui/app.rs` and the transition one
    input event makes: search capture, field editing, the two-step field add, and normal
    navigation with its commands. Everything the loop reaches outside the state (the saved
    configuration, the editor, the browser, the disk) is an `Env` the event is handled in. */
module AppSpec {
  import opened Wrappers
  import opened Text
  import opened Paths
  import opened Records
  import opened PostOrder
  import opened PostView
  import opened Posts
  import opened SiteConfig

  datatype KeyCode = Char(c: char) | Backspace | Enter | Esc | Tab | BackTab | Up | Down | Left | Right | OtherKey

  /** A terminal event: a key with whether Control was held, or anything else (mouse, resize). */
  datatype Event = Key(code: KeyCode, ctrl: bool) | NonKey

  /** How a spawned process went. */
  datatype IoResult = Done | Failed(message: string)

  /** The world around the loop:
      the loaded configuration and the `EDITOR` variable; the codec and whether the disk accepts
      a write, for saving; how `describe` renders a save error; how the editor and the browser
      exit; and the content tree a rescan walks. */
  datatype Env = Env(
    config: Config,
    editorVariable: Option<string>,
    codec: Codec,
    writable: bool,
    describe: PostError -> string,
    editorOutcome: IoResult,
    browserOutcome: IoResult,
    contentExists: bool,
    contentTree: seq<Entry>)

  /** The fields of `App`, without the configuration (which is in `Env`). */
  datatype AppState = AppState(
    posts: seq<Post>,
    selected: nat,
    focusedPane: nat,
    metadataSelected: nat,
    contentScroll: nat,
    searchQuery: string,
    searchMode: bool,
    sortMode: SortMode,
    draftsOnly: bool,
    editMode: bool,
    editBuffer: string,
    statusMessage: string,
    addingField: bool,
    newFieldKey: string)

  const PostsPane := 0
  const MetadataPane := 1
  const BodyPane := 2

  /** `App::new` after the initial scan. */
  function Initial(posts: seq<Post>): AppState {
    AppState(posts, 0, PostsPane, 0, 0, "", false, DateDesc, false, false, "", "", false, "")
  }

  /** The invariant of the loop: the focused pane is one of three, at most one input mode is on,
      and a pending field key exists only while a field is being added. */
  predicate Valid(s: AppState) {
    && s.focusedPane < 3
    && !(s.searchMode && (s.editMode || s.addingField))
    && !(s.editMode && s.addingField)
    && (s.newFieldKey != "" ==> s.addingField)
  }

  // ---------------------------------------------------------------- what the screen shows

  function ViewOf(s: AppState): seq<Post> {
    View(s.posts, s.draftsOnly, s.searchQuery, s.sortMode)
  }

  /** `filtered.get(selected)`. */
  function Selected(s: AppState): Option<Post> {
    if s.selected < |ViewOf(s)| then Some(ViewOf(s)[s.selected]) else None
  }

  /** `posts.iter().find(|p| p.path == path)`: the first post with that path. */
  function IndexOfPath(posts: seq<Post>, path: Path): (r: Option<nat>)
    ensures r.Some? ==> r.value < |posts| && posts[r.value].path == path
    ensures r.Some? ==> forall j :: 0 <= j < r.value ==> posts[j].path != path
    ensures r.None? ==> forall j :: 0 <= j < |posts| ==> posts[j].path != path
  {
    if posts == [] then None
    else if posts[0].path == path then Some(0)
    else match IndexOfPath(posts[1..], path)
      case None => None
      case Some(i) => Some(i + 1)
  }

  /** The post of `posts` a field command acts on: the one with the path of the selected row. */
  function Target(s: AppState): Option<nat> {
    match Selected(s)
    case None => None
    case Some(p) => IndexOfPath(s.posts, p.path)
  }

  /** The rows of the metadata pane: the frontmatter keys in sorted order, then "Add field". */
  function FieldKeys(m: map<string, Value>): (keys: seq<string>)
    ensures |keys| == |m|
    ensures forall k :: k in keys <==> k in m
  {
    SortedKeys(m.Keys)
  }

  /** The text a field's value is edited as. */
  function Display(v: Value): string {
    match v
    case Str(s) => s
    case Bool(b) => if b then "true" else "false"
    case Num(text) => text
    case _ => ""
  }

  /** The editor `open_in_editor` runs: the configured one, else `$EDITOR`, else `nano`. */
  function EditorCommand(configured: Option<string>, variable: Option<string>): string {
    if configured.Some? then configured.value else if variable.Some? then variable.value else "nano"
  }

  /** The 30 lines of the body pane starting at the scroll offset, as the renderer slices them:
      defined only while the offset is within the body. */
  function ContentWindowAsWritten(content: string, scroll: nat): (r: seq<string>)
    requires scroll <= |Lines(content)|
    ensures |r| == if scroll + 30 < |Lines(content)| then 30 else |Lines(content)| - scroll
    ensures forall k :: 0 <= k < |r| ==> r[k] == Lines(content)[scroll + k]
  {
    var lines := Lines(content);
    lines[scroll..if scroll + 30 < |lines| then scroll + 30 else |lines|]
  }

  /** The window with the offset clamped to the body: always defined, at most 30 lines, and the
      same as the renderer's wherever that is defined. */
  function ContentWindow(content: string, scroll: nat): (r: seq<string>)
    ensures |r| <= 30
    ensures scroll <= |Lines(content)| ==> r == ContentWindowAsWritten(content, scroll)
    ensures scroll >= |Lines(content)| ==> r == []
  {
    var lines := Lines(content);
    var start := if scroll < |lines| then scroll else |lines|;
    lines[start..if start + 30 < |lines| then start + 30 else |lines|]
  }

  /** The renderer can draw the state: the scroll offset lies within the selected post's body. */
  predicate Drawable(s: AppState) {
    Selected(s).Some? ==> s.contentScroll <= |Lines(Selected(s).value.content)|
  }

  /** The text of the body pane, drawn from the clamped window: the selected post's lines from
      the scroll offset, at most 30 of them, or a placeholder when no post is selected. Where the
      renderer's own slice is defined, this is exactly its text. */
  function BodyText(s: AppState): (r: string)
    ensures Selected(s).None? ==> r == "No post selected"
    ensures Drawable(s) && Selected(s).Some? ==>
      r == Join(ContentWindowAsWritten(Selected(s).value.content, s.contentScroll), '\n')
    ensures Selected(s).Some? && s.contentScroll >= |Lines(Selected(s).value.content)| ==> r == ""
  {
    match Selected(s)
    case None => "No post selected"
    case Some(p) => Join(ContentWindow(p.content, s.contentScroll), '\n')
  }

  // ---------------------------------------------------------------- the `App` methods

  function SelectNext(s: AppState): AppState {
    var n := |ViewOf(s)|;
    if n > 0 && s.selected < n - 1 then s.(selected := s.selected + 1) else s
  }

  function SelectPrev(s: AppState): AppState {
    if s.selected > 0 then s.(selected := s.selected - 1) else s
  }

  function CycleSort(s: AppState): AppState {
    s.(sortMode := NextSortMode(s.sortMode), selected := 0)
  }

  function ToggleDrafts(s: AppState): AppState {
    s.(draftsOnly := !s.draftsOnly, selected := 0)
  }

  /** The program run by Enter in the body pane, if a post is selected. */
  function EditorInvocation(s: AppState, env: Env): Option<(string, Path)> {
    match Selected(s)
    case None => None
    case Some(p) => Some((EditorCommand(env.config.editor, env.editorVariable), p.path))
  }

  /** `scan_posts` on the configured content tree. */
  function Rescan(env: Env): seq<Post> {
    Scanned(env.contentExists, env.contentTree, env.codec)
  }

  // ---------------------------------------------------------------- search capture

  /** `String::pop`: the last character dropped, nothing on an empty string. */
  function Pop(s: string): string {
    if s == [] then s else s[..|s| - 1]
  }

  function SearchInput(s: AppState, code: KeyCode): AppState {
    match code
    case Char(c) => s.(searchQuery := s.searchQuery + [c], selected := 0)
    case Backspace => s.(searchQuery := Pop(s.searchQuery), selected := 0)
    case Esc => s.(searchMode := false)
    case Enter => s.(searchMode := false)
    case _ => s
  }

  // ---------------------------------------------------------------- field edit and add

  /** A field set from the edit buffer: `draft` becomes the boolean `buffer == "true"`, any other
      key the string; the struct fields mirroring `title`, `draft` and `content_type` (also set
      by a `type` key) follow. */
  function SetField(p: Post, key: string, buffer: string): Post {
    var value := if key == "draft" then Bool(buffer == "true") else Str(buffer);
    var q := p.(frontmatter := p.frontmatter[key := value]);
    if key == "title" then q.(title := buffer)
    else if key == "draft" then q.(draft := buffer == "true")
    else if key == "content_type" || key == "type" then q.(contentType := buffer)
    else q
  }

  /** Enter while editing a field: the field at the selected row of the target post is set. */
  function CommitEdit(s: AppState): AppState {
    var posts :=
      match Target(s)
      case None => s.posts
      case Some(i) =>
        var keys := FieldKeys(s.posts[i].frontmatter);
        if s.metadataSelected < |keys| then s.posts[i := SetField(s.posts[i], keys[s.metadataSelected], s.editBuffer)]
        else s.posts;
    s.(posts := posts, editMode := false, editBuffer := "")
  }

  /** Enter while adding a field: the first Enter takes the buffer as the key, the second
      inserts the buffer as a string under that key. */
  function CommitAdd(s: AppState): AppState {
    if s.newFieldKey == "" then s.(newFieldKey := s.editBuffer, editBuffer := "")
    else
      var posts :=
        match Target(s)
        case None => s.posts
        case Some(i) => s.posts[i := s.posts[i].(frontmatter := s.posts[i].frontmatter[s.newFieldKey := Str(s.editBuffer)])];
      s.(posts := posts, addingField := false, newFieldKey := "", editBuffer := "")
  }

  /** The second Enter of an add changes the posts and ends the add, and nothing else. */
  lemma CommitAddEndsAdd(s: AppState)
    requires s.newFieldKey != ""
    ensures CommitAdd(s) == s.(posts := CommitAdd(s).posts, addingField := false, newFieldKey := "", editBuffer := "")
  {
  }

  function EditInput(s: AppState, code: KeyCode): AppState {
    match code
    case Char(c) => s.(editBuffer := s.editBuffer + [c])
    case Backspace => s.(editBuffer := Pop(s.editBuffer))
    case Enter => if s.addingField then CommitAdd(s) else CommitEdit(s)
    case Esc => s.(editMode := false, addingField := false, editBuffer := "", newFieldKey := "")
    case _ => s
  }

  // ---------------------------------------------------------------- normal mode

  function MoveDown(s: AppState): AppState {
    if s.focusedPane == PostsPane then SelectNext(s)
    else if s.focusedPane == MetadataPane then
      if Selected(s).Some? && s.metadataSelected < |Selected(s).value.frontmatter| then s.(metadataSelected := s.metadataSelected + 1)
      else s
    else if s.focusedPane == BodyPane then s.(contentScroll := s.contentScroll + 1)
    else s
  }

  function MoveUp(s: AppState): AppState {
    if s.focusedPane == PostsPane then SelectPrev(s)
    else if s.focusedPane == MetadataPane then
      if s.metadataSelected > 0 then s.(metadataSelected := s.metadataSelected - 1) else s
    else if s.focusedPane == BodyPane then
      if s.contentScroll > 0 then s.(contentScroll := s.contentScroll - 1) else s
    else s
  }

  function NextPane(s: AppState): AppState {
    s.(focusedPane := (s.focusedPane + 1) % 3, metadataSelected := 0, contentScroll := 0)
  }

  function PrevPane(s: AppState): AppState {
    s.(focusedPane := if s.focusedPane == 0 then 2 else s.focusedPane - 1, metadataSelected := 0, contentScroll := 0)
  }

  /** Enter in normal mode: on the metadata pane, start adding (on the "Add field" row) or start
      editing the selected field with its value as the buffer; on the body pane, run the editor
      and rescan when it succeeds. */
  function EnterKey(s: AppState, env: Env): AppState {
    if s.focusedPane == MetadataPane then
      match Selected(s)
      case None => s
      case Some(p) =>
        if s.metadataSelected == |p.frontmatter| then s.(addingField := true, editBuffer := "", newFieldKey := "")
        else
          var keys := FieldKeys(p.frontmatter);
          if s.metadataSelected < |keys| then s.(editBuffer := Display(p.frontmatter[keys[s.metadataSelected]]), editMode := true)
          else s
    else if s.focusedPane == BodyPane then
      var outcome := if EditorInvocation(s, env).Some? then env.editorOutcome else Done;
      match outcome
      case Failed(message) => s.(statusMessage := "\U{2717} Error opening editor: " + message)
      case Done => s.(posts := Rescan(env), statusMessage := "\U{2713} Reloaded after edit")
    else s
  }

  /** `d` on the metadata pane: the selected field of the target post is removed, unless it is
      `title` or the row is "Add field"; the selection moves up when it fell off the end. */
  function DeleteField(s: AppState): AppState {
    if s.focusedPane != MetadataPane then s
    else match Target(s)
      case None => s
      case Some(i) =>
        var keys := FieldKeys(s.posts[i].frontmatter);
        if s.metadataSelected >= |keys| then s
        else
          var key := keys[s.metadataSelected];
          if key == "title" then s.(statusMessage := "\U{2717} Cannot delete title field")
          else
            var fm := s.posts[i].frontmatter - {key};
            s.(posts := s.posts[i := s.posts[i].(frontmatter := fm)],
               statusMessage := "\U{2713} Deleted field: " + key,
               metadataSelected := if s.metadataSelected > 0 && s.metadataSelected >= |fm| then s.metadataSelected - 1 else s.metadataSelected)
  }

  /** Ctrl+S: the target post is written, and the status says whether that worked. */
  function SaveSelected(s: AppState, env: Env): AppState {
    s.(statusMessage := SaveStatus(s, env))
  }

  /** The status line after Ctrl+S: the saved path or the error, untouched with no target. */
  function SaveStatus(s: AppState, env: Env): string {
    match Target(s)
    case None => s.statusMessage
    case Some(i) =>
      match Saved(s.posts[i], env.codec, env.writable)
      case Ok(_) => "\U{2713} Saved: " + RenderPath(s.posts[i].path)
      case Err(e) => "\U{2717} Error saving: " + env.describe(e)
  }

  /** `o`: the selected post's preview URL opened in the browser; only the status line changes. */
  function Preview(s: AppState, env: Env): AppState {
    s.(statusMessage := PreviewStatus(s, env))
  }

  /** The status line after `o`: the URL opened, or why not; untouched with no selection. */
  function PreviewStatus(s: AppState, env: Env): string {
    match Selected(s)
    case None => s.statusMessage
    case Some(p) =>
      match PreviewUrl(env.config, p.path)
      case None => "\U{2717} Could not construct preview URL"
      case Some(url) =>
        match env.browserOutcome
        case Done => "\U{2713} Opening in browser: " + url
        case Failed(message) => "\U{2717} Could not open browser: " + message
  }

  function StartSearch(s: AppState): AppState {
    s.(searchMode := true, searchQuery := "", selected := 0, statusMessage := "Search mode: type to filter posts")
  }

  function ClearSearch(s: AppState): AppState {
    if s.searchQuery != "" then s.(searchQuery := "", selected := 0, statusMessage := "Search cleared") else s
  }

  /** A key in normal mode: the new state, and whether the loop goes on. */
  function NormalInput(s: AppState, code: KeyCode, ctrl: bool, env: Env): (AppState, bool) {
    match code
    case Char(c) =>
      if c == 'q' then (s, false)
      else if c == 's' && ctrl then (SaveSelected(s, env), true)
      else if c == 'c' && ctrl then (s, false)
      else if c == 'j' then (MoveDown(s), true)
      else if c == 'k' then (MoveUp(s), true)
      else if c == 'l' then (NextPane(s), true)
      else if c == 'h' then (PrevPane(s), true)
      else if c == 'd' then (DeleteField(s), true)
      else if c == 's' then (CycleSort(s), true)
      else if c == 'f' then (ToggleDrafts(s), true)
      else if c == 'r' then (s.(posts := Rescan(env)), true)
      else if c == 'o' then (Preview(s, env), true)
      else if c == '/' then (StartSearch(s), true)
      else (s, true)
    case Down => (MoveDown(s), true)
    case Up => (MoveUp(s), true)
    case Enter => (EnterKey(s, env), true)
    case Tab => (NextPane(s), true)
    case Right => (NextPane(s), true)
    case BackTab => (PrevPane(s), true)
    case Left => (PrevPane(s), true)
    case Esc => (ClearSearch(s), true)
    case _ => (s, true)
  }

  /** Every key clears the status line, except Ctrl+S, whose outcome it is about to show. */
  function ClearStatus(s: AppState, code: KeyCode, ctrl: bool): AppState {
    if ctrl && code == Char('s') then s else s.(statusMessage := "")
  }

  /** One pass of the `run` loop on one event: the new state, and whether the loop goes on. */
  function Next(s: AppState, ev: Event, env: Env): (AppState, bool) {
    match ev
    case NonKey => (s, true)
    case Key(code, ctrl) =>
      var t := ClearStatus(s, code, ctrl);
      if t.searchMode then (SearchInput(t, code), true)
      else if t.editMode || t.addingField then (EditInput(t, code), true)
      else NormalInput(t, code, ctrl, env)
  }
}
