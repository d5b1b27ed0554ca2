/** `App` of `src/tui/app.rs` as the object it is: its fields updated in place by the key
    handlers of the `run` loop. Each method is proved to leave the fields as the transition of
    `AppSpec` says, so what `AppProperties` proves of the transition holds of the object. */
module TuiApp {
  import opened Wrappers
  import opened Text
  import opened Paths
  import opened Records
  import opened PostOrder
  import opened PostView
  import opened Posts
  import opened SiteConfig
  import opened AppSpec
  import AppProperties

  lemma {:induction false} KeepSnoc(s: seq<Post>, x: Post, keep: Post -> bool)
    ensures Keep(s + [x], keep) == Keep(s, keep) + (if keep(x) then [x] else [])
  {
    if s != [] {
      assert (s + [x])[1..] == s[1..] + [x];
      KeepSnoc(s[1..], x, keep);
    }
  }

  /** `Vec::retain`: one pass keeping the elements `keep` accepts, in order. */
  method Retain(s: seq<Post>, keep: Post -> bool) returns (r: seq<Post>)
    ensures r == Keep(s, keep)
  {
    r := [];
    for i := 0 to |s|
      invariant r == Keep(s[..i], keep)
    {
      assert s[..i + 1] == s[..i] + [s[i]];
      KeepSnoc(s[..i], s[i], keep);
      if keep(s[i]) {
        r := r + [s[i]];
      }
    }
    assert s[..|s|] == s;
  }

  /** `posts.iter().position(|p| p.path == path)`: a scan from the front. */
  method FindPost(posts: seq<Post>, path: Path) returns (i: Option<nat>)
    ensures i == IndexOfPath(posts, path)
  {
    var k := 0;
    while k < |posts|
      invariant k <= |posts|
      invariant forall j :: 0 <= j < k ==> posts[j].path != path
    {
      if posts[k].path == path {
        return Some(k);
      }
      k := k + 1;
    }
    return None;
  }

  class App {
    var config: Config
    var posts: seq<Post>
    var selected: nat
    var focusedPane: nat
    var metadataSelected: nat
    var contentScroll: nat
    var searchQuery: string
    var searchMode: bool
    var sortMode: SortMode
    var draftsOnly: bool
    var editMode: bool
    var editBuffer: string
    var statusMessage: string
    var addingField: bool
    var newFieldKey: string

    /** The fields other than the configuration, as one value. */
    function State(): AppState
      reads this
    {
      AppState(posts, selected, focusedPane, metadataSelected, contentScroll, searchQuery, searchMode,
        sortMode, draftsOnly, editMode, editBuffer, statusMessage, addingField, newFieldKey)
    }

    /** `App::new`: the loaded configuration and the posts a first scan of its content tree finds. */
    constructor (config: Config, contentExists: bool, contentTree: seq<Entry>, codec: Codec)
      ensures this.config == config
      ensures State() == Initial(Scanned(contentExists, contentTree, codec))
      ensures Valid(State())
    {
      this.config := config;
      var scanned := ScanPosts(contentExists, contentTree, codec);
      posts := scanned;
      selected := 0;
      focusedPane := 0;
      metadataSelected := 0;
      contentScroll := 0;
      searchQuery := "";
      searchMode := false;
      sortMode := DateDesc;
      draftsOnly := false;
      editMode := false;
      editBuffer := "";
      statusMessage := "";
      addingField := false;
      newFieldKey := "";
    }

    /** `get_filtered_posts`: the drafts filter, the search filter, then the sort. */
    method FilteredPosts() returns (filtered: seq<Post>)
      ensures filtered == ViewOf(State())
    {
      filtered := posts;
      if draftsOnly {
        filtered := Retain(filtered, (p: Post) => p.draft);
      }
      if searchQuery != [] {
        var query := searchQuery;
        filtered := Retain(filtered, (p: Post) => MatchesQuery(p, query));
      }
      filtered := SortPosts(sortMode, filtered);
    }

    /** The path of the selected row, if there is one. */
    method SelectedPath() returns (path: Option<Path>)
      ensures path.None? <==> Selected(State()).None?
      ensures path.Some? ==> path.value == Selected(State()).value.path
    {
      var filtered := FilteredPosts();
      path := if selected < |filtered| then Some(filtered[selected].path) else None;
    }

    /** The index in `posts` of the post the selected row shows. */
    method TargetIndex() returns (i: Option<nat>)
      ensures i == Target(State())
    {
      var path := SelectedPath();
      if path.None? {
        return None;
      }
      i := FindPost(posts, path.value);
    }

    method SelectNext()
      modifies this
      ensures State() == AppSpec.SelectNext(old(State())) && config == old(config)
    {
      var filtered := FilteredPosts();
      if |filtered| > 0 && selected < |filtered| - 1 {
        selected := selected + 1;
      }
    }

    method SelectPrev()
      modifies this
      ensures State() == AppSpec.SelectPrev(old(State())) && config == old(config)
    {
      if selected > 0 {
        selected := selected - 1;
      }
    }

    method CycleSort()
      modifies this
      ensures State() == AppSpec.CycleSort(old(State())) && config == old(config)
    {
      sortMode := match sortMode
        case DateDesc => DateAsc
        case DateAsc => TitleAsc
        case TitleAsc => TitleDesc
        case TitleDesc => DateDesc;
      selected := 0;
    }

    method ToggleDrafts()
      modifies this
      ensures State() == AppSpec.ToggleDrafts(old(State())) && config == old(config)
    {
      draftsOnly := !draftsOnly;
      selected := 0;
    }

    /** `open_in_editor`: the command run on the selected post's path, if a post is selected,
        and how it went; `Done` when no post is selected. */
    method OpenInEditor(env: Env) returns (invocation: Option<(string, Path)>, outcome: IoResult)
      requires env.config == config
      ensures invocation == EditorInvocation(State(), env)
      ensures outcome == if invocation.Some? then env.editorOutcome else Done
    {
      var filtered := FilteredPosts();
      if selected < |filtered| {
        var editor := if config.editor.Some? then config.editor.value
          else if env.editorVariable.Some? then env.editorVariable.value
          else "nano";
        invocation := Some((editor, filtered[selected].path));
        outcome := env.editorOutcome;
      } else {
        invocation := None;
        outcome := Done;
      }
    }

    // ---------------------------------------------------------------- search mode

    method SearchKey(code: KeyCode)
      modifies this
      ensures State() == SearchInput(old(State()), code) && config == old(config)
    {
      match code {
        case Char(c) =>
          searchQuery := searchQuery + [c];
          selected := 0;
        case Backspace =>
          if searchQuery != [] {
            searchQuery := searchQuery[..|searchQuery| - 1];
          }
          selected := 0;
        case Esc =>
          searchMode := false;
        case Enter =>
          searchMode := false;
        case _ =>
      }
    }

    // ---------------------------------------------------------------- edit and add mode

    method CommitEdit()
      modifies this
      ensures State() == AppSpec.CommitEdit(old(State())) && config == old(config)
    {
      ghost var before := State();
      var updated := WithEditedField();
      assert AppSpec.CommitEdit(before) == before.(posts := updated, editMode := false, editBuffer := "");
      EndEdit(updated);
    }

    /** The edit ends with `updated` as the posts. */
    method EndEdit(updated: seq<Post>)
      modifies this
      ensures State() == old(State()).(posts := updated, editMode := false, editBuffer := "")
      ensures config == old(config)
    {
      posts, editMode, editBuffer := updated, false, "";
    }

    /** The posts once the selected field of the target post is set to the edit buffer. */
    method WithEditedField() returns (updated: seq<Post>)
      ensures updated == AppSpec.CommitEdit(State()).posts
    {
      var i := TargetIndex();
      updated := posts;
      if i.Some? {
        var keys := FieldKeys(posts[i.value].frontmatter);
        if metadataSelected < |keys| {
          updated := posts[i.value := SetField(posts[i.value], keys[metadataSelected], editBuffer)];
        }
      }
    }

    method CommitAdd()
      modifies this
      ensures State() == AppSpec.CommitAdd(old(State())) && config == old(config)
    {
      if newFieldKey == "" {
        newFieldKey := editBuffer;
        editBuffer := "";
      } else {
        InsertPendingField();
      }
    }

    /** The second Enter of an add: the value goes in under the pending key, and the add ends. */
    method InsertPendingField()
      requires newFieldKey != ""
      modifies this
      ensures State() == AppSpec.CommitAdd(old(State())) && config == old(config)
    {
      ghost var before := State();
      var updated := WithPendingField();
      CommitAddEndsAdd(before);
      EndAdd(updated);
    }

    /** The add ends with `updated` as the posts. */
    method EndAdd(updated: seq<Post>)
      modifies this
      ensures State() == old(State()).(posts := updated, addingField := false, newFieldKey := "", editBuffer := "")
      ensures config == old(config)
    {
      posts, addingField, newFieldKey, editBuffer := updated, false, "", "";
    }

    /** The posts once the pending field is inserted into the target post. */
    method WithPendingField() returns (updated: seq<Post>)
      requires newFieldKey != ""
      ensures updated == AppSpec.CommitAdd(State()).posts
    {
      var i := TargetIndex();
      updated := posts;
      if i.Some? {
        var p := posts[i.value];
        updated := posts[i.value := p.(frontmatter := p.frontmatter[newFieldKey := Str(editBuffer)])];
      }
    }

    method EditKey(code: KeyCode)
      modifies this
      ensures State() == EditInput(old(State()), code) && config == old(config)
    {
      ghost var before := State();
      match code {
        case Char(c) =>
          assert EditInput(before, code) == before.(editBuffer := before.editBuffer + [c]);
          editBuffer := editBuffer + [c];
        case Backspace =>
          assert EditInput(before, code) == before.(editBuffer := Pop(before.editBuffer));
          if editBuffer != [] {
            editBuffer := editBuffer[..|editBuffer| - 1];
          }
        case Enter =>
          if addingField {
            assert EditInput(before, code) == AppSpec.CommitAdd(before);
            CommitAdd();
          } else {
            assert EditInput(before, code) == AppSpec.CommitEdit(before);
            CommitEdit();
          }
        case Esc =>
          assert EditInput(before, code) == before.(editMode := false, addingField := false, editBuffer := "", newFieldKey := "");
          editMode, addingField, editBuffer, newFieldKey := false, false, "", "";
        case _ =>
          assert EditInput(before, code) == before;
      }
    }

    // ---------------------------------------------------------------- normal mode

    method MoveDown()
      modifies this
      ensures State() == AppSpec.MoveDown(old(State())) && config == old(config)
    {
      if focusedPane == PostsPane {
        SelectNext();
      } else if focusedPane == MetadataPane {
        NextField();
      } else if focusedPane == BodyPane {
        contentScroll := contentScroll + 1;
      }
    }

    /** Down on the metadata pane: one row further, up to the "Add field" row. */
    method NextField()
      requires focusedPane == MetadataPane
      modifies this
      ensures State() == AppSpec.MoveDown(old(State())) && config == old(config)
    {
      var filtered := FilteredPosts();
      if selected < |filtered| && metadataSelected < |filtered[selected].frontmatter| {
        metadataSelected := metadataSelected + 1;
      }
    }

    method MoveUp()
      modifies this
      ensures State() == AppSpec.MoveUp(old(State())) && config == old(config)
    {
      if focusedPane == PostsPane {
        SelectPrev();
      } else if focusedPane == MetadataPane {
        if metadataSelected > 0 {
          metadataSelected := metadataSelected - 1;
        }
      } else if focusedPane == BodyPane {
        if contentScroll > 0 {
          contentScroll := contentScroll - 1;
        }
      }
    }

    method NextPane()
      modifies this
      ensures State() == AppSpec.NextPane(old(State())) && config == old(config)
    {
      focusedPane := (focusedPane + 1) % 3;
      metadataSelected := 0;
      contentScroll := 0;
    }

    method PrevPane()
      modifies this
      ensures State() == AppSpec.PrevPane(old(State())) && config == old(config)
    {
      focusedPane := if focusedPane == 0 then 2 else focusedPane - 1;
      metadataSelected := 0;
      contentScroll := 0;
    }

    method Rescan(env: Env)
      modifies this
      ensures State() == old(State()).(posts := AppSpec.Rescan(env)) && config == old(config)
    {
      posts := ScanPosts(env.contentExists, env.contentTree, env.codec);
    }

    /** Enter on the metadata pane, which reaches nothing outside the object. */
    method EnterMetadata(env: Env)
      requires focusedPane == MetadataPane
      modifies this
      ensures State() == AppSpec.EnterKey(old(State()), env) && config == old(config)
    {
      ghost var before := State();
      var filtered := FilteredPosts();
      if selected < |filtered| {
        var post := filtered[selected];
        assert Selected(before) == Some(post);
        assert AppSpec.EnterKey(before, env) == OpenedField(before, post.frontmatter);
        OpenField(post.frontmatter);
      }
    }

    /** The state after Enter on the metadata row of a post with frontmatter `fm`. */
    static function OpenedField(s: AppState, fm: map<string, Value>): AppState {
      if s.metadataSelected == |fm| then s.(addingField := true, editBuffer := "", newFieldKey := "")
      else
        var keys := FieldKeys(fm);
        if s.metadataSelected < |keys| then s.(editBuffer := Display(fm[keys[s.metadataSelected]]), editMode := true)
        else s
    }

    /** Starts adding a field on the "Add field" row, or editing the field on any other row. */
    method OpenField(fm: map<string, Value>)
      modifies this
      ensures State() == OpenedField(old(State()), fm) && config == old(config)
    {
      if metadataSelected == |fm| {
        addingField := true;
        editBuffer := "";
        newFieldKey := "";
      } else {
        var keys := FieldKeys(fm);
        if metadataSelected < |keys| {
          var shown := Display(fm[keys[metadataSelected]]);
          assert OpenedField(State(), fm) == State().(editBuffer := shown, editMode := true);
          editBuffer := shown;
          editMode := true;
        }
      }
    }

    method EnterKey(env: Env)
      requires env.config == config
      modifies this
      ensures State() == AppSpec.EnterKey(old(State()), env) && config == old(config)
    {
      if focusedPane == MetadataPane {
        EnterMetadata(env);
      } else if focusedPane == BodyPane {
        var invocation, outcome := OpenInEditor(env);
        AppProperties.EnterOnBody(State(), env);
        match outcome {
          case Failed(message) =>
            statusMessage := "\U{2717} Error opening editor: " + message;
          case Done =>
            Rescan(env);
            statusMessage := "\U{2713} Reloaded after edit";
        }
      }
    }

    method DeleteField()
      modifies this
      ensures State() == AppSpec.DeleteField(old(State())) && config == old(config)
    {
      if focusedPane != MetadataPane {
        assert AppSpec.DeleteField(State()) == State();
        return;
      }
      ghost var before := State();
      var i := TargetIndex();
      if i.None? {
        assert AppSpec.DeleteField(before) == before;
        return;
      }
      var keys := FieldKeys(posts[i.value].frontmatter);
      if metadataSelected >= |keys| {
        assert AppSpec.DeleteField(before) == before;
      } else {
        var key := keys[metadataSelected];
        if key != "title" {
          var fm := posts[i.value].frontmatter - {key};
          var ms := if metadataSelected > 0 && metadataSelected >= |fm| then metadataSelected - 1 else metadataSelected;
          assert AppSpec.DeleteField(before) == before.(posts := posts[i.value := posts[i.value].(frontmatter := fm)],
            statusMessage := "\U{2713} Deleted field: " + key, metadataSelected := ms);
          RemoveField(i.value, key);
        } else {
          assert AppSpec.DeleteField(before) == before.(statusMessage := "\U{2717} Cannot delete title field");
          statusMessage := "\U{2717} Cannot delete title field";
        }
      }
    }

    /** The removal itself: `key` leaves the frontmatter of post `i`, the status names it, and the
        selection moves up when it fell off the end of the shorter field list. */
    method RemoveField(i: nat, key: string)
      requires i < |posts|
      modifies this
      ensures var fm := old(posts[i].frontmatter) - {key};
        State() == old(State()).(posts := old(posts[i := posts[i].(frontmatter := fm)]),
          statusMessage := "\U{2713} Deleted field: " + key,
          metadataSelected := if old(metadataSelected) > 0 && old(metadataSelected) >= |fm| then old(metadataSelected) - 1 else old(metadataSelected))
      ensures config == old(config)
    {
      var fm := posts[i].frontmatter - {key};
      posts := posts[i := posts[i].(frontmatter := fm)];
      statusMessage := "\U{2713} Deleted field: " + key;
      if metadataSelected > 0 && metadataSelected >= |fm| {
        metadataSelected := metadataSelected - 1;
      }
    }

    method SaveSelected(env: Env)
      modifies this
      ensures State() == AppSpec.SaveSelected(old(State()), env) && config == old(config)
    {
      var i := TargetIndex();
      if i.Some? {
        var post := posts[i.value];
        var written := SavePost(post, env.codec, env.writable);
        match written {
          case Ok(_) =>
            statusMessage := "\U{2713} Saved: " + RenderPath(post.path);
          case Err(e) =>
            statusMessage := "\U{2717} Error saving: " + env.describe(e);
        }
      }
    }

    method Preview(env: Env)
      requires env.config == config
      modifies this
      ensures State() == AppSpec.Preview(old(State()), env) && config == old(config)
    {
      var filtered := FilteredPosts();
      if selected < |filtered| {
        var url := PreviewUrl(config, filtered[selected].path);
        match url {
          case Some(u) =>
            match env.browserOutcome {
              case Done =>
                statusMessage := "\U{2713} Opening in browser: " + u;
              case Failed(message) =>
                statusMessage := "\U{2717} Could not open browser: " + message;
            }
          case None =>
            statusMessage := "\U{2717} Could not construct preview URL";
        }
      }
    }

    method StartSearch()
      modifies this
      ensures State() == AppSpec.StartSearch(old(State())) && config == old(config)
    {
      searchMode := true;
      searchQuery := "";
      selected := 0;
      statusMessage := "Search mode: type to filter posts";
    }

    method ClearSearch()
      modifies this
      ensures State() == AppSpec.ClearSearch(old(State())) && config == old(config)
    {
      if searchQuery != "" {
        searchQuery := "";
        selected := 0;
        statusMessage := "Search cleared";
      }
    }

    method NormalKey(code: KeyCode, ctrl: bool, env: Env) returns (running: bool)
      requires env.config == config
      modifies this
      ensures (State(), running) == NormalInput(old(State()), code, ctrl, env) && config == old(config)
    {
      running := true;
      match code {
        case Char(c) =>
          if c == 'q' {
            running := false;
          } else if c == 's' && ctrl {
            SaveSelected(env);
          } else if c == 'c' && ctrl {
            running := false;
          } else if c == 'j' {
            MoveDown();
          } else if c == 'k' {
            MoveUp();
          } else if c == 'l' {
            NextPane();
          } else if c == 'h' {
            PrevPane();
          } else if c == 'd' {
            DeleteField();
          } else if c == 's' {
            CycleSort();
          } else if c == 'f' {
            ToggleDrafts();
          } else if c == 'r' {
            Rescan(env);
          } else if c == 'o' {
            Preview(env);
          } else if c == '/' {
            StartSearch();
          }
        case Down => MoveDown();
        case Up => MoveUp();
        case Enter => EnterKey(env);
        case Tab => NextPane();
        case Right => NextPane();
        case BackTab => PrevPane();
        case Left => PrevPane();
        case Esc => ClearSearch();
        case _ =>
      }
    }

    /** A key event: the status line is cleared (unless the key is Ctrl+S), then the key goes
        to search capture, to the field editor, or to the normal-mode commands. */
    method HandleKey(code: KeyCode, ctrl: bool, env: Env) returns (running: bool)
      requires env.config == config
      modifies this
      ensures (State(), running) == Next(old(State()), Key(code, ctrl), env) && config == old(config)
    {
      ghost var before := State();
      if !ctrl || code != Char('s') {
        statusMessage := "";
      }
      ghost var cleared := State();
      assert cleared == ClearStatus(before, code, ctrl);
      running := true;
      if searchMode {
        assert Next(before, Key(code, ctrl), env) == (SearchInput(cleared, code), true);
        SearchKey(code);
      } else if editMode || addingField {
        assert Next(before, Key(code, ctrl), env) == (EditInput(cleared, code), true);
        EditKey(code);
      } else {
        assert Next(before, Key(code, ctrl), env) == NormalInput(cleared, code, ctrl, env);
        running := NormalKey(code, ctrl, env);
      }
    }

    /** One pass of the `run` loop: the event is handled as the transition says, the loop
        invariant is kept, and no rescan or edit breaks the distinctness of the post paths. */
    method Step(ev: Event, env: Env) returns (running: bool)
      requires env.config == config
      requires forall i, j :: 0 <= i < j < |env.contentTree| ==> env.contentTree[i].path != env.contentTree[j].path
      modifies this
      ensures (State(), running) == Next(old(State()), ev, env) && config == old(config)
      ensures Valid(old(State())) ==> Valid(State())
      ensures UniquePaths(old(State()).posts) ==> UniquePaths(State().posts)
    {
      ghost var before := State();
      if Valid(before) {
        AppProperties.NextPreservesValid(before, ev, env);
      }
      if UniquePaths(before.posts) {
        AppProperties.NextKeepsUniquePaths(before, ev, env);
      }
      match ev {
        case NonKey =>
          running := true;
        case Key(code, ctrl) =>
          running := HandleKey(code, ctrl, env);
      }
    }
  }
}
