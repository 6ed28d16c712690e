/**
 * How the agent manager turns a folder chosen in the open-folder dialog into
 * a project record: the id is the URI's string form, the path its filesystem
 * path, and the name the last '/'-separated segment of the URI's path, or
 * "Untitled" when that segment is empty.
 */
module ProjectRecord {
  import opened SessionState

  datatype Option<T> = None | Some(value: T)

  /** A folder URI: its string form, its path component and its filesystem path. */
  datatype Uri = Uri(text: string, path: string, fsPath: string)

  /** The separator of a URI path. */
  const Separator: char := '/'

  /** The name given to a project whose last path segment is empty. */
  const Untitled: string := "Untitled"

  /** The segments glued back together, one separator between neighbours. */
  function Join(segments: seq<string>, sep: char): string
    requires |segments| >= 1
  {
    if |segments| == 1 then segments[0]
    else segments[0] + [sep] + Join(segments[1..], sep)
  }

  /**
   * String splitting as in JavaScript's `split` with a one-character
   * separator: the pieces between separators, empty pieces included, so an
   * empty string splits into one empty piece.
   */
  function Split(s: string, sep: char): (r: seq<string>)
    ensures |r| >= 1
    ensures forall i :: 0 <= i < |r| ==> sep !in r[i]
    ensures Join(r, sep) == s
  {
    if s == [] then [""]
    else
      var rest := Split(s[1..], sep);
      if s[0] == sep then
        assert ([""] + rest)[1..] == rest;
        [""] + rest
      else
        var r := [[s[0]] + rest[0]] + rest[1..];
        assert r[1..] == rest[1..];
        r
  }

  /** The last element of the split, as `split('/').pop()` yields it. */
  function LastSegment(path: string): (r: string)
    ensures Separator !in r
  {
    var parts := Split(path, Separator);
    parts[|parts| - 1]
  }

  /** The display name of a project: its last path segment, or Untitled when that is empty. */
  function DisplayName(path: string): (name: string)
    ensures name != []
    ensures Separator !in name
  {
    var last := LastSegment(path);
    if last == "" then Untitled else last
  }

  /** The join of several segments ends with a separator and the last segment. */
  lemma {:induction false} JoinLast(segments: seq<string>, sep: char)
    requires |segments| >= 2
    ensures Join(segments, sep) == Join(segments[..|segments| - 1], sep) + [sep] + segments[|segments| - 1]
  {
    var n := |segments|;
    if n > 2 {
      var init := segments[..n - 1];
      assert segments[1..][..n - 2] == init[1..];
      assert segments[1..][n - 2] == segments[n - 1];
      JoinLast(segments[1..], sep);
    }
  }

  /**
   * The last segment is a suffix of the path free of separators, and it is
   * either the whole path or preceded by a separator.
   */
  lemma LastSegmentIsTail(path: string)
    ensures var r := LastSegment(path);
      && |r| <= |path|
      && r == path[|path| - |r|..]
      && Separator !in r
      && (|r| == |path| || path[|path| - |r| - 1] == Separator)
  {
    var parts := Split(path, Separator);
    var r := parts[|parts| - 1];
    if |parts| > 1 {
      JoinLast(parts, Separator);
      var front := Join(parts[..|parts| - 1], Separator) + [Separator];
      assert path == front + r;
      assert path[|front|..] == r;
      assert path[|front| - 1] == Separator;
    }
  }

  /** The last segment is empty exactly for the empty path and a path ending in a separator. */
  lemma EmptyLastSegment(path: string)
    ensures LastSegment(path) == "" <==> path == "" || path[|path| - 1] == Separator
  {
    LastSegmentIsTail(path);
    var r := LastSegment(path);
    if r != "" {
      assert r[|r| - 1] == path[|path| - 1];
    }
  }

  /** An empty path, or one ending in a separator, gives the name Untitled. */
  lemma DisplayNameUntitled(path: string)
    requires path == "" || path[|path| - 1] == Separator
    ensures DisplayName(path) == Untitled
  {
    EmptyLastSegment(path);
  }

  /** A non-empty path without any separator is its own name. */
  lemma DisplayNameWholePath(path: string)
    requires path != ""
    requires Separator !in path
    ensures DisplayName(path) == path
  {
  }

  /**
   * Otherwise the name is what follows the last separator: when position k
   * holds a separator, none follows it, and something does, the name is the
   * rest of the path after k.
   */
  lemma DisplayNameAfterLastSeparator(path: string, k: nat)
    requires k < |path| - 1
    requires path[k] == Separator
    requires Separator !in path[k + 1..]
    ensures DisplayName(path) == path[k + 1..]
  {
    LastSegmentIsTail(path);
    var r := LastSegment(path);
    var n := |path|;
    assert |r| == n - k - 1;
  }

  /**
   * The project built from the folders chosen in the dialog: none when the
   * dialog was dismissed or returned nothing, otherwise one built from the
   * first folder with its id and path copied unchanged.
   */
  function ProjectFromSelection(selection: Option<seq<Uri>>): (r: Option<Project>)
    ensures r.Some? <==> selection.Some? && |selection.value| > 0
    ensures r.Some? ==>
              var uri := selection.value[0];
              && r.value.id == uri.text
              && r.value.path == uri.fsPath
              && r.value.name == DisplayName(uri.path)
  {
    if selection.Some? && |selection.value| > 0 then
      var uri := selection.value[0];
      Some(Project(uri.text, DisplayName(uri.path), uri.fsPath))
    else
      None
  }

  /** The add-folder button: registers the chosen folder, if any, with the session state. */
  method AddSelectedFolder(state: SyferAgentState, selection: Option<seq<Uri>>)
    requires state.Valid()
    modifies state
    ensures state.Valid()
    ensures ProjectFromSelection(selection).None? ==>
              state.projects == old(state.projects) &&
              state.activePanels == old(state.activePanels) &&
              state.events == old(state.events)
    ensures ProjectFromSelection(selection).Some? ==>
              var p := ProjectFromSelection(selection).value;
              && state.activePanels == old(state.activePanels)
              && HasPath(state.projects, p.path)
              && (HasPath(old(state.projects), p.path) ==> state.projects == old(state.projects))
              && (HasPath(old(state.projects), p.path) ==> state.events == old(state.events))
              && (!HasPath(old(state.projects), p.path) ==> state.projects == old(state.projects) + [p])
              && (!HasPath(old(state.projects), p.path) ==>
                    state.events == old(state.events) + [ProjectsChanged(state.projects)])
  {
    var candidate := ProjectFromSelection(selection);
    if candidate.Some? {
      state.AddProject(candidate.value);
    }
  }
}
