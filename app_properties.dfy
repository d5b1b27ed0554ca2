/** What one event does to the session state of `src/tui/app.rs`, stated and proved about the
    transition of `AppSpec`. */
module AppProperties {
  import opened Wrappers
  import opened Text
  import opened Paths
  import opened Records
  import opened PostOrder
  import opened PostView
  import opened Posts
  import opened SiteConfig
  import opened AppSpec

  // ---------------------------------------------------------------- the loop invariant

  lemma InitialValid(posts: seq<Post>)
    ensures Valid(Initial(posts)) && Drawable(Initial(posts))
    ensures Initial(posts).selected == 0 && Initial(posts).sortMode == DateDesc && !Initial(posts).draftsOnly
  {
  }

  /** Every event keeps the invariant: one input mode at most, a pane among three, a pending key
      only while adding. */
  lemma NextPreservesValid(s: AppState, ev: Event, env: Env)
    requires Valid(s)
    ensures Valid(Next(s, ev, env).0)
  {
    if ev.Key? {
      var t := ClearStatus(s, ev.code, ev.ctrl);
      assert Valid(t);
      if !t.searchMode && !t.editMode && !t.addingField {
        NormalInputPreservesValid(t, ev.code, ev.ctrl, env);
      }
    }
  }

  lemma NormalInputPreservesValid(s: AppState, code: KeyCode, ctrl: bool, env: Env)
    requires Valid(s) && !s.searchMode && !s.editMode && !s.addingField
    ensures Valid(NormalInput(s, code, ctrl, env).0)
  {
    match code {
      case Char(c) =>
        if c == 'q' {
        } else if c == 's' && ctrl {
        } else if c == 'c' && ctrl {
        } else if c == 'j' {
        } else if c == 'k' {
        } else if c == 'l' {
        } else if c == 'h' {
        } else if c == 'd' {
          DeleteKeepsModes(s);
        } else if c == 's' {
        } else if c == 'f' {
        } else if c == 'r' {
        } else if c == 'o' {
        } else if c == '/' {
        }
      case Enter =>
        EnterKeepsValid(s, env);
      case _ =>
    }
  }

  /** What a normal-mode key does is one of the commands, or nothing. */
  lemma NormalInputCases(s: AppState, code: KeyCode, ctrl: bool, env: Env)
    ensures var r := NormalInput(s, code, ctrl, env).0;
      || r == s || r == SaveSelected(s, env) || r == MoveDown(s) || r == MoveUp(s)
      || r == NextPane(s) || r == PrevPane(s) || r == DeleteField(s) || r == CycleSort(s)
      || r == ToggleDrafts(s) || r == s.(posts := Rescan(env)) || r == Preview(s, env)
      || r == StartSearch(s) || r == EnterKey(s, env) || r == ClearSearch(s)
  {
    var r := NormalInput(s, code, ctrl, env).0;
    match code {
      case Char(c) =>
        if c == 'q' { assert r == s; }
        else if c == 's' && ctrl { assert r == SaveSelected(s, env); }
        else if c == 'c' && ctrl { assert r == s; }
        else if c == 'j' { assert r == MoveDown(s); }
        else if c == 'k' { assert r == MoveUp(s); }
        else if c == 'l' { assert r == NextPane(s); }
        else if c == 'h' { assert r == PrevPane(s); }
        else if c == 'd' { assert r == DeleteField(s); }
        else if c == 's' { assert r == CycleSort(s); }
        else if c == 'f' { assert r == ToggleDrafts(s); }
        else if c == 'r' { assert r == s.(posts := Rescan(env)); }
        else if c == 'o' { assert r == Preview(s, env); }
        else if c == '/' { assert r == StartSearch(s); }
        else { assert r == s; }
      case Down => assert r == MoveDown(s);
      case Up => assert r == MoveUp(s);
      case Enter => assert r == EnterKey(s, env);
      case Tab => assert r == NextPane(s);
      case Right => assert r == NextPane(s);
      case BackTab => assert r == PrevPane(s);
      case Left => assert r == PrevPane(s);
      case Esc => assert r == ClearSearch(s);
      case _ => assert r == s;
    }
  }

  lemma DeleteKeepsModes(s: AppState)
    ensures var r := DeleteField(s);
      r == s.(posts := r.posts, statusMessage := r.statusMessage, metadataSelected := r.metadataSelected)
  {
    if s.focusedPane == MetadataPane {
      match Target(s) {
        case None =>
        case Some(i) =>
          var keys := FieldKeys(s.posts[i].frontmatter);
          if s.metadataSelected < |keys| {
            var key := keys[s.metadataSelected];
            if key != "title" {
              var fm := s.posts[i].frontmatter - {key};
              assert DeleteField(s) == s.(posts := s.posts[i := s.posts[i].(frontmatter := fm)],
                statusMessage := "\U{2713} Deleted field: " + key,
                metadataSelected := if s.metadataSelected > 0 && s.metadataSelected >= |fm| then s.metadataSelected - 1 else s.metadataSelected);
            }
          }
      }
    }
  }

  lemma EnterKeepsValid(s: AppState, env: Env)
    requires Valid(s) && !s.searchMode && !s.editMode && !s.addingField
    ensures Valid(EnterKey(s, env))
  {
    if s.focusedPane == MetadataPane {
      match Selected(s) {
        case None =>
        case Some(p) =>
      }
    } else if s.focusedPane == BodyPane {
      EnterOnBody(s, env);
    }
  }

  lemma EnterOnBody(s: AppState, env: Env)
    requires s.focusedPane == BodyPane
    ensures var outcome := if EditorInvocation(s, env).Some? then env.editorOutcome else Done;
      EnterKey(s, env) == match outcome
        case Failed(message) => s.(statusMessage := "\U{2717} Error opening editor: " + message)
        case Done => s.(posts := Rescan(env), statusMessage := "\U{2713} Reloaded after edit")
  {
  }

  /** Enter changes no post, except that a successful editor run reloads them all. */
  lemma EnterKeepsOrReloads(s: AppState, env: Env)
    ensures EnterKey(s, env).posts == s.posts || EnterKey(s, env).posts == Rescan(env)
  {
    if s.focusedPane == MetadataPane {
      match Selected(s) {
        case None =>
        case Some(p) =>
      }
    } else if s.focusedPane == BodyPane {
      EnterOnBody(s, env);
    }
  }

  // ---------------------------------------------------------------- the selection

  /** Down in the post list moves the selection one row, and never past the last row; a
      selection on screen stays on screen. Nothing else changes. */
  lemma SelectNextClamps(s: AppState)
    ensures var r := SelectNext(s);
      && r == s.(selected := r.selected)
      && (r.selected == s.selected + 1 <==> s.selected + 1 < |ViewOf(s)|)
      && (r.selected != s.selected + 1 ==> r.selected == s.selected)
      && (s.selected < |ViewOf(s)| ==> r.selected < |ViewOf(s)|)
  {
  }

  /** Up undoes down: below the last row, moving down and then up returns to the same state. */
  lemma SelectPrevUndoesNext(s: AppState)
    requires s.selected + 1 < |ViewOf(s)|
    ensures SelectPrev(SelectNext(s)) == s
  {
  }

  /** Down undoes up away from the first row, and up at the first row changes nothing. */
  lemma SelectNextUndoesPrev(s: AppState)
    ensures 0 < s.selected < |ViewOf(s)| ==> SelectNext(SelectPrev(s)) == s
    ensures s.selected == 0 ==> SelectPrev(s) == s
  {
  }

  /** The metadata selection moves one row at a time and never past the "Add field" row, which
      sits after the last field. */
  lemma MetadataSelectionClamps(s: AppState)
    requires s.focusedPane == MetadataPane
    ensures Selected(s).Some? && s.metadataSelected <= |Selected(s).value.frontmatter|
      ==> MoveDown(s).metadataSelected <= |Selected(s).value.frontmatter|
    ensures MoveDown(s).metadataSelected == s.metadataSelected + 1
      <==> Selected(s).Some? && s.metadataSelected < |Selected(s).value.frontmatter|
    ensures MoveDown(s).metadataSelected <= s.metadataSelected + 1
    ensures MoveUp(s).metadataSelected == if s.metadataSelected > 0 then s.metadataSelected - 1 else 0
  {
  }

  /** On the body pane, up undoes down, down undoes up away from the top, and up at the top
      changes nothing. */
  lemma BodyScrollInverse(s: AppState)
    requires s.focusedPane == BodyPane
    ensures MoveUp(MoveDown(s)) == s
    ensures s.contentScroll > 0 ==> MoveDown(MoveUp(s)) == s
    ensures s.contentScroll == 0 ==> MoveUp(s) == s
  {
  }

  /** With distinct paths, the post a field command acts on is the selected post itself. */
  lemma TargetIsSelected(s: AppState)
    requires UniquePaths(s.posts) && Selected(s).Some?
    ensures Target(s).Some? && s.posts[Target(s).value] == Selected(s).value
  {
    var p := Selected(s).value;
    assert p in ViewOf(s);
    ViewIsSubMultiset(s.posts, s.draftsOnly, s.searchQuery, s.sortMode);
    assert p in multiset(s.posts);
    var k :| 0 <= k < |s.posts| && s.posts[k] == p;
    assert IndexOfPath(s.posts, p.path).Some?;
    var i := IndexOfPath(s.posts, p.path).value;
    assert i <= k;
    assert s.posts[i].path == s.posts[k].path;
    assert i == k;
  }

  // ---------------------------------------------------------------- rings

  /** Rotating the focus forward and back leave the pane where it was; each rotation resets the
      metadata selection and the scroll offset and changes nothing else; three steps forward go
      all the way round. */
  lemma PaneRotation(s: AppState)
    requires s.focusedPane < 3
    ensures NextPane(s) == s.(focusedPane := NextPane(s).focusedPane, metadataSelected := 0, contentScroll := 0)
    ensures PrevPane(s) == s.(focusedPane := PrevPane(s).focusedPane, metadataSelected := 0, contentScroll := 0)
    ensures NextPane(s).focusedPane != s.focusedPane && PrevPane(s).focusedPane != s.focusedPane
    ensures PrevPane(NextPane(s)).focusedPane == s.focusedPane
    ensures NextPane(PrevPane(s)).focusedPane == s.focusedPane
    ensures NextPane(NextPane(NextPane(s))).focusedPane == s.focusedPane
  {
  }

  /** Four presses of `s` restore the sort order; two presses of `f` restore the drafts filter;
      each press puts the selection on the first row. */
  lemma SortAndFilterRings(s: AppState)
    ensures CycleSort(CycleSort(CycleSort(CycleSort(s)))) == s.(selected := 0)
    ensures CycleSort(s).sortMode != s.sortMode && CycleSort(s).selected == 0
    ensures ToggleDrafts(ToggleDrafts(s)) == s.(selected := 0)
    ensures ToggleDrafts(s).draftsOnly != s.draftsOnly && ToggleDrafts(s).selected == 0
  {
    SortRingHasPeriodFour(s.sortMode);
  }

  // ---------------------------------------------------------------- deleting a field

  /** The title field cannot be deleted: the posts stay as they are and the status says so. */
  lemma DeleteRefusesTitle(s: AppState)
    requires s.focusedPane == MetadataPane && Target(s).Some?
    requires var keys := FieldKeys(s.posts[Target(s).value].frontmatter);
      s.metadataSelected < |keys| && keys[s.metadataSelected] == "title"
    ensures DeleteField(s) == s.(statusMessage := "\U{2717} Cannot delete title field")
  {
  }

  /** `d` on the "Add field" row, or off the metadata pane, does nothing. */
  lemma DeleteOffFieldsDoesNothing(s: AppState)
    requires s.focusedPane != MetadataPane || Target(s).None?
      || s.metadataSelected >= |s.posts[Target(s).value].frontmatter|
    ensures DeleteField(s) == s
  {
  }

  /** Deleting any other field removes exactly that key of exactly the target post; every other
      key and every other post is left as it was, and the selection stays on a field row (or on
      the only row left). */
  lemma DeleteRemovesOneKey(s: AppState)
    requires s.focusedPane == MetadataPane && Target(s).Some?
    requires var keys := FieldKeys(s.posts[Target(s).value].frontmatter);
      s.metadataSelected < |keys| && keys[s.metadataSelected] != "title"
    ensures var i := Target(s).value;
      var key := FieldKeys(s.posts[i].frontmatter)[s.metadataSelected];
      var r := DeleteField(s);
      var before := s.posts[i].frontmatter;
      var after := r.posts[i].frontmatter;
      && |r.posts| == |s.posts|
      && (forall j :: 0 <= j < |s.posts| && j != i ==> r.posts[j] == s.posts[j])
      && r.posts[i] == s.posts[i].(frontmatter := after)
      && key in before && key !in after
      && (forall k :: k != key ==> (k in after <==> k in before))
      && (forall k :: k in after ==> after[k] == before[k])
      && |after| == |before| - 1
      && (r.metadataSelected < |after| || |after| == 0)
      && r.statusMessage == "\U{2713} Deleted field: " + key
  {
    var i := Target(s).value;
    var key := FieldKeys(s.posts[i].frontmatter)[s.metadataSelected];
    assert key in s.posts[i].frontmatter;
    RemoveOneKey(s.posts[i].frontmatter, key);
  }

  /** Removing a present key drops that key and keeps every other entry. */
  lemma RemoveOneKey(m: map<string, Value>, key: string)
    requires key in m
    ensures var after := m - {key};
      && key !in after
      && (forall k :: k != key ==> (k in after <==> k in m))
      && (forall k :: k in after ==> after[k] == m[k])
      && |after| == |m| - 1
  {
    assert (m - {key}).Keys == m.Keys - {key};
  }

  // ---------------------------------------------------------------- editing a field

  /** Setting a field from the buffer writes the coerced value under the key, keeps every other
      key, and brings the struct field mirroring the key in line; path, date, lists and body are
      untouched. */
  lemma SetFieldEffect(p: Post, key: string, buffer: string)
    ensures var q := SetField(p, key, buffer);
      && q.frontmatter == p.frontmatter[key := if key == "draft" then Bool(buffer == "true") else Str(buffer)]
      && q.title == (if key == "title" then buffer else p.title)
      && q.draft == (if key == "draft" then buffer == "true" else p.draft)
      && q.contentType == (if key == "content_type" || key == "type" then buffer else p.contentType)
      && q.path == p.path && q.date == p.date && q.categories == p.categories
      && q.tags == p.tags && q.content == p.content
  {
  }

  /** Enter while editing sets the selected field of the target post and of no other post, then
      leaves edit mode with an empty buffer. */
  lemma CommitEditSetsOneField(s: AppState)
    requires Target(s).Some?
    requires s.metadataSelected < |s.posts[Target(s).value].frontmatter|
    ensures var i := Target(s).value;
      var key := FieldKeys(s.posts[i].frontmatter)[s.metadataSelected];
      var r := CommitEdit(s);
      && |r.posts| == |s.posts|
      && r.posts[i] == SetField(s.posts[i], key, s.editBuffer)
      && (forall j :: 0 <= j < |s.posts| && j != i ==> r.posts[j] == s.posts[j])
      && !r.editMode && r.editBuffer == ""
      && r == s.(posts := r.posts, editMode := false, editBuffer := "")
  {
  }

  /** Typing and backspace while editing or adding change the buffer and nothing else (beyond
      the status line every key clears). */
  lemma EditKeysTouchOnlyBuffer(s: AppState, c: char, ctrl: bool, env: Env)
    requires !s.searchMode && (s.editMode || s.addingField)
    ensures var t := ClearStatus(s, Char(c), ctrl);
      Next(s, Key(Char(c), ctrl), env) == (t.(editBuffer := s.editBuffer + [c]), true)
    ensures var t := ClearStatus(s, Backspace, ctrl);
      Next(s, Key(Backspace, ctrl), env) == (t.(editBuffer := Pop(s.editBuffer)), true)
  {
  }

  /** Esc while editing or adding drops the buffer, the pending key and both modes, and changes
      no post. */
  lemma EscCancelsEdit(s: AppState, ctrl: bool, env: Env)
    requires !s.searchMode && (s.editMode || s.addingField)
    ensures var r := Next(s, Key(Esc, ctrl), env).0;
      && r.posts == s.posts && !r.editMode && !r.addingField && r.editBuffer == "" && r.newFieldKey == ""
      && r.selected == s.selected && r.metadataSelected == s.metadataSelected
  {
  }

  // ---------------------------------------------------------------- adding a field

  /** The first Enter of an add takes the buffer as the key and empties the buffer; no post
      changes. An empty buffer leaves the key empty, so the add is still waiting for a key. */
  lemma AddFirstEnterTakesKey(s: AppState)
    requires s.addingField && s.newFieldKey == ""
    ensures CommitAdd(s) == s.(newFieldKey := s.editBuffer, editBuffer := "")
    ensures CommitAdd(s).posts == s.posts
    ensures s.editBuffer == "" ==> CommitAdd(s).addingField && CommitAdd(s).newFieldKey == ""
  {
  }

  /** The second Enter inserts the buffer as a string under the pending key in the target post,
      over any value the key had, changes no other post, and ends the add. */
  lemma AddSecondEnterInserts(s: AppState)
    requires s.addingField && s.newFieldKey != ""
    ensures var r := CommitAdd(s);
      && |r.posts| == |s.posts|
      && !r.addingField && r.newFieldKey == "" && r.editBuffer == ""
      && (Target(s).None? ==> r.posts == s.posts)
      && (Target(s).Some? ==>
            var i := Target(s).value;
            && r.posts[i] == s.posts[i].(frontmatter := s.posts[i].frontmatter[s.newFieldKey := Str(s.editBuffer)])
            && (forall j :: 0 <= j < |s.posts| && j != i ==> r.posts[j] == s.posts[j]))
  {
  }

  /** An add never inserts under the empty key. */
  lemma AddNeverInsertsEmptyKey(s: AppState)
    requires s.addingField
    ensures forall j :: 0 <= j < |s.posts| && CommitAdd(s).posts[j] != s.posts[j] ==>
      s.newFieldKey != "" && CommitAdd(s).posts[j].frontmatter.Keys == s.posts[j].frontmatter.Keys + {s.newFieldKey}
  {
  }

  // ---------------------------------------------------------------- searching

  /** In search mode a character extends the query and a backspace shortens it, each putting
      the selection on the first row; Enter and Esc leave search mode and keep the query. */
  lemma SearchKeys(s: AppState, code: KeyCode, ctrl: bool, env: Env)
    requires s.searchMode
    ensures var r := Next(s, Key(code, ctrl), env).0;
      && r.posts == s.posts
      && (code.Char? ==> r.searchMode && r.searchQuery == s.searchQuery + [code.c] && r.selected == 0)
      && (code == Backspace ==> r.searchMode && r.searchQuery == Pop(s.searchQuery) && r.selected == 0)
      && (code == Enter || code == Esc ==> !r.searchMode && r.searchQuery == s.searchQuery && r.selected == s.selected)
  {
  }

  /** Typing in search mode never brings a post into view (with the ASCII lowercasing of
      `Lower`). */
  lemma SearchTypingNarrows(s: AppState, c: char, ctrl: bool, env: Env)
    requires s.searchMode
    ensures multiset(ViewOf(Next(s, Key(Char(c), ctrl), env).0)) <= multiset(ViewOf(s))
  {
    LongerQueryNarrows(s.posts, s.draftsOnly, s.searchQuery, c, s.sortMode);
  }

  /** `/` starts a search with an empty query, so every post the drafts filter lets through is
      shown again. */
  lemma SearchStartShowsAll(s: AppState, env: Env)
    requires !s.searchMode && !s.editMode && !s.addingField
    ensures var r := Next(s, Key(Char('/'), false), env).0;
      && r.searchMode && r.searchQuery == "" && r.selected == 0 && r.posts == s.posts
      && forall x :: x in s.posts && (!s.draftsOnly || x.draft) ==> x in ViewOf(r)
  {
    var r := Next(s, Key(Char('/'), false), env).0;
    assert r == StartSearch(s.(statusMessage := ""));
    forall x | x in s.posts && (!s.draftsOnly || x.draft) ensures x in ViewOf(r) {
      ViewCount(s.posts, s.draftsOnly, "", s.sortMode, x);
      assert x in multiset(ViewOf(r));
    }
  }

  /** Esc in normal mode clears the query, putting the selection on the first row when there
      was one to clear. */
  lemma EscClearsSearch(s: AppState, env: Env)
    requires !s.searchMode && !s.editMode && !s.addingField
    ensures var r := Next(s, Key(Esc, false), env).0;
      && r.searchQuery == "" && r.posts == s.posts && !r.searchMode
      && (s.searchQuery != "" ==> r.selected == 0 && r.statusMessage == "Search cleared")
      && (s.searchQuery == "" ==> r == s.(statusMessage := ""))
  {
    assert Next(s, Key(Esc, false), env).0 == ClearSearch(s.(statusMessage := ""));
  }

  // ---------------------------------------------------------------- what the loop does to posts

  /** The posts after an event are the rescanned posts, or the posts before with at most one
      of them changed, in place, keeping its path and its `title` key. */
  predicate Localized(before: seq<Post>, after: seq<Post>) {
    && |after| == |before|
    && (forall j :: 0 <= j < |before| ==> after[j].path == before[j].path)
    && (forall j :: 0 <= j < |before| && "title" in before[j].frontmatter ==> "title" in after[j].frontmatter)
    && (forall j, k :: 0 <= j < |before| && 0 <= k < |before| && after[j] != before[j] && after[k] != before[k] ==> j == k)
  }

  lemma LocalizedUpdate(posts: seq<Post>, i: nat, q: Post)
    requires i < |posts| && q.path == posts[i].path
    requires "title" in posts[i].frontmatter ==> "title" in q.frontmatter
    ensures Localized(posts, posts[i := q])
  {
  }

  lemma LocalizedRefl(posts: seq<Post>)
    ensures Localized(posts, posts)
  {
  }

  lemma DeleteLocalized(s: AppState)
    ensures Localized(s.posts, DeleteField(s).posts)
  {
    var removes := false;
    if s.focusedPane == MetadataPane && Target(s).Some? {
      var i := Target(s).value;
      var keys := FieldKeys(s.posts[i].frontmatter);
      if s.metadataSelected < |keys| && keys[s.metadataSelected] != "title" {
        var key := keys[s.metadataSelected];
        var q := s.posts[i].(frontmatter := s.posts[i].frontmatter - {key});
        assert DeleteField(s).posts == s.posts[i := q];
        LocalizedUpdate(s.posts, i, q);
        removes := true;
      }
    }
    if !removes {
      assert DeleteField(s).posts == s.posts;
      LocalizedRefl(s.posts);
    }
  }

  /** Moving down, in any pane, leaves the posts as they are. */
  lemma MoveDownKeepsPosts(s: AppState)
    ensures MoveDown(s).posts == s.posts
  {
    if s.focusedPane == PostsPane {
      assert MoveDown(s) == SelectNext(s);
    }
  }

  /** Moving up, in any pane, leaves the posts as they are. */
  lemma MoveUpKeepsPosts(s: AppState)
    ensures MoveUp(s).posts == s.posts
  {
  }

  /** Saving and previewing change only the status line. */
  lemma StatusCommandsKeepPosts(s: AppState, env: Env)
    ensures SaveSelected(s, env).posts == s.posts && Preview(s, env).posts == s.posts
  {
  }

  /** Switching panes, sort modes, filters and search leaves the posts as they are. */
  lemma ViewCommandsKeepPosts(s: AppState)
    ensures && NextPane(s).posts == s.posts && PrevPane(s).posts == s.posts
            && CycleSort(s).posts == s.posts && ToggleDrafts(s).posts == s.posts
            && StartSearch(s).posts == s.posts && ClearSearch(s).posts == s.posts
  {
  }

  /** A normal-mode key leaves the posts alone, reloads them, or deletes a field. */
  lemma NormalInputPosts(s: AppState, code: KeyCode, ctrl: bool, env: Env)
    ensures var r := NormalInput(s, code, ctrl, env).0;
      r.posts == s.posts || r.posts == Rescan(env) || r == DeleteField(s)
  {
    NormalInputCases(s, code, ctrl, env);
    MoveDownKeepsPosts(s);
    MoveUpKeepsPosts(s);
    StatusCommandsKeepPosts(s, env);
    ViewCommandsKeepPosts(s);
    EnterKeepsOrReloads(s, env);
  }

  lemma NormalInputLocalized(s: AppState, code: KeyCode, ctrl: bool, env: Env)
    ensures var r := NormalInput(s, code, ctrl, env).0.posts;
      r == Rescan(env) || Localized(s.posts, r)
  {
    NormalInputPosts(s, code, ctrl, env);
    LocalizedRefl(s.posts);
    DeleteLocalized(s);
  }

  lemma CommitAddLocalized(s: AppState)
    ensures Localized(s.posts, CommitAdd(s).posts)
  {
    if s.newFieldKey != "" && Target(s).Some? {
      var i := Target(s).value;
      LocalizedUpdate(s.posts, i, s.posts[i].(frontmatter := s.posts[i].frontmatter[s.newFieldKey := Str(s.editBuffer)]));
    } else {
      LocalizedRefl(s.posts);
    }
  }

  lemma CommitEditLocalized(s: AppState)
    ensures Localized(s.posts, CommitEdit(s).posts)
  {
    LocalizedRefl(s.posts);
    match Target(s) {
      case None =>
      case Some(i) =>
        var keys := FieldKeys(s.posts[i].frontmatter);
        if s.metadataSelected < |keys| {
          var q := SetField(s.posts[i], keys[s.metadataSelected], s.editBuffer);
          SetFieldEffect(s.posts[i], keys[s.metadataSelected], s.editBuffer);
          assert CommitEdit(s).posts == s.posts[i := q];
          LocalizedUpdate(s.posts, i, q);
        }
    }
  }

  lemma EditInputLocalized(s: AppState, code: KeyCode)
    ensures Localized(s.posts, EditInput(s, code).posts)
  {
    if code == Enter {
      if s.addingField { CommitAddLocalized(s); } else { CommitEditLocalized(s); }
    } else {
      LocalizedRefl(s.posts);
    }
  }

  /** No event but a rescan changes more than one post, moves a post, or takes a `title` key away. */
  lemma NextChangesAtMostOnePost(s: AppState, ev: Event, env: Env)
    ensures var r := Next(s, ev, env).0.posts;
      r == Rescan(env) || Localized(s.posts, r)
  {
    match ev {
      case NonKey =>
        LocalizedRefl(s.posts);
      case Key(code, ctrl) =>
        var t := ClearStatus(s, code, ctrl);
        assert t.posts == s.posts;
        if t.searchMode {
          assert Next(s, ev, env).0 == SearchInput(t, code);
          assert SearchInput(t, code).posts == s.posts;
          LocalizedRefl(s.posts);
        } else if t.editMode || t.addingField {
          assert Next(s, ev, env).0 == EditInput(t, code);
          EditInputLocalized(t, code);
        } else {
          assert Next(s, ev, env).0 == NormalInput(t, code, ctrl, env).0;
          NormalInputLocalized(t, code, ctrl, env);
        }
    }
  }

  /** Distinct paths stay distinct, given a content walk that visits each path once. */
  lemma NextKeepsUniquePaths(s: AppState, ev: Event, env: Env)
    requires UniquePaths(s.posts)
    requires forall i, j :: 0 <= i < j < |env.contentTree| ==> env.contentTree[i].path != env.contentTree[j].path
    ensures UniquePaths(Next(s, ev, env).0.posts)
  {
    NextChangesAtMostOnePost(s, ev, env);
    ScannedUniquePaths(env.contentExists, env.contentTree, env.codec);
  }

  // ---------------------------------------------------------------- leaving the loop

  /** The loop ends exactly on `q` or Ctrl+C in normal mode; in search and edit modes those keys
      are typed as text. */
  lemma QuitKeys(s: AppState, ev: Event, env: Env)
    ensures !Next(s, ev, env).1 <==>
      && ev.Key? && !s.searchMode && !s.editMode && !s.addingField
      && (ev.code == Char('q') || (ev.code == Char('c') && ev.ctrl))
  {
  }

  // ---------------------------------------------------------------- saving and the editor

  /** Ctrl+S writes the target post and reports it: the status names the path when the write
      worked and the error when it did not. No post and no mode changes. */
  lemma SaveReports(s: AppState, env: Env)
    requires !s.searchMode && !s.editMode && !s.addingField && Target(s).Some?
    ensures var r := Next(s, Key(Char('s'), true), env).0;
      var p := s.posts[Target(s).value];
      && r.posts == s.posts
      && (Saved(p, env.codec, env.writable).Ok? ==> r.statusMessage == "\U{2713} Saved: " + RenderPath(p.path))
      && (Saved(p, env.codec, env.writable).Err? ==>
            r.statusMessage == "\U{2717} Error saving: " + env.describe(Saved(p, env.codec, env.writable).error))
      && r == s.(statusMessage := r.statusMessage)
  {
  }

  // ---------------------------------------------------------------- the body window

  /** The body window is always at most 30 lines; it is the renderer's window whenever the state
      is drawable. */
  lemma BodyWindowAgrees(content: string, scroll: nat)
    requires scroll <= |Lines(content)|
    ensures |ContentWindow(content, scroll)| <= 30
    ensures ContentWindow(content, scroll) == ContentWindowAsWritten(content, scroll)
  {
  }

  /** The post with an empty body of the scroll counterexample below. */
  function EmptyPost(): Post {
    Post([Named("empty.md")], "Untitled", None, false, "", [], [], "", map[])
  }

  /** Down on the body pane does not keep the state drawable: with an empty body selected and the
      scroll at the top, one press moves the offset past the end of the body, where the
      renderer's slice is out of bounds. */
  lemma ScrollDownLeavesBody(env: Env)
    ensures var s := Initial([EmptyPost()]).(focusedPane := BodyPane);
      Drawable(s) && !Drawable(Next(s, Key(Down, false), env).0)
  {
    var s := Initial([EmptyPost()]).(focusedPane := BodyPane);
    assert SortPosts(DateDesc, [EmptyPost()]) == [EmptyPost()];
    assert ViewOf(s) == [EmptyPost()];
    var r := Next(s, Key(Down, false), env).0;
    assert r.contentScroll == 1;
    assert ViewOf(r) == [EmptyPost()];
    assert Lines("") == [];
  }

  /** In general: in normal mode on the body pane, Down (or `j`) with a post with an empty body
      selected always leaves the state undrawable, whatever the scroll was. */
  lemma ScrollDownPastEmptyBody(s: AppState, env: Env)
    requires s.focusedPane == BodyPane && !s.searchMode && !s.editMode && !s.addingField
    requires Selected(s).Some? && Selected(s).value.content == ""
    ensures !Drawable(Next(s, Key(Down, false), env).0)
    ensures !Drawable(Next(s, Key(Char('j'), false), env).0)
  {
    DownIsMoveDown(s, env);
    var r := MoveDown(s.(statusMessage := ""));
    assert r == s.(statusMessage := "", contentScroll := s.contentScroll + 1);
    assert ViewOf(r) == ViewOf(s);
    assert Lines("") == [];
  }

  /** In normal mode, Down and `j` clear the status and move down. */
  lemma DownIsMoveDown(s: AppState, env: Env)
    requires !s.searchMode && !s.editMode && !s.addingField
    ensures Next(s, Key(Down, false), env).0 == MoveDown(s.(statusMessage := ""))
    ensures Next(s, Key(Char('j'), false), env).0 == MoveDown(s.(statusMessage := ""))
  {
    var t := s.(statusMessage := "");
    assert NormalInput(t, Down, false, env).0 == MoveDown(t);
    assert NormalInput(t, Char('j'), false, env).0 == MoveDown(t);
  }

  /** A dated post with a one-line body, for the sort counterexample below. */
  function OneLinePost(): Post {
    Post([Named("one.md")], "Untitled", Some(1), false, "", [], [], "x", map[])
  }

  /** Cycling the sort does not keep the state drawable either, because it resets the selection
      but not the scroll: scrolled to the end of a one-line body, `s` selects the empty post,
      and the scroll offset lies past its end. */
  lemma CycleSortLeavesBody(env: Env)
    ensures var s := Initial([OneLinePost(), EmptyPost()]).(focusedPane := BodyPane, contentScroll := 1);
      Drawable(s) && !Drawable(Next(s, Key(Char('s'), false), env).0)
  {
    var a, b := OneLinePost(), EmptyPost();
    var s := Initial([a, b]).(focusedPane := BodyPane, contentScroll := 1);
    assert Filtered([a, b], false, "") == [a, b];
    assert [a, b][1..] == [b];
    assert SortPosts(DateDesc, [b]) == [b];
    assert ViewOf(s) == [a, b];
    OneLine("x");
    var r := Next(s, Key(Char('s'), false), env).0;
    assert r == CycleSort(s).(statusMessage := r.statusMessage);
    assert r.sortMode == DateAsc && r.posts == [a, b] && !r.draftsOnly && r.searchQuery == "";
    assert SortPosts(DateAsc, [b]) == [b];
    assert !Le(DateAsc, a, b);
    assert Insert(DateAsc, a, []) == [a];
    assert SortPosts(DateAsc, [a, b]) == Insert(DateAsc, a, [b]) == [b] + [a];
    assert ViewOf(r) == [b, a];
    assert Lines("") == [];
  }
}
