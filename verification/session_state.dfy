/**
 * The Syfer Agent session state manager: a registry of projects, unique by
 * path and kept in insertion order, and for every window the ordered list of
 * project ids whose panels are open there, at most MaxPanels of them.
 *
 * The two change notifications of the TypeScript class are recorded in a
 * ghost event log, one entry per notification, carrying the value the
 * listeners receive.
 */
module SessionState {

  /** One user-registered workspace folder. */
  datatype Project = Project(id: string, name: string, path: string)

  /** A change notification: the project list changed, or one window's panels did. */
  datatype Event =
    | ProjectsChanged(projects: seq<Project>)
    | PanelsChanged(windowId: string, panelIds: seq<string>)

  /** The number of panels one window may hold. */
  const MaxPanels: nat := 3

  /** Some registered project has exactly this path (case-sensitive), found by scanning from the front. */
  predicate HasPath(ps: seq<Project>, path: string)
    ensures HasPath(ps, path) <==> exists p :: p in ps && p.path == path
  {
    ps != [] && (ps[0].path == path || HasPath(ps[1..], path))
  }

  /** No two registered projects share a path. */
  ghost predicate DistinctPaths(ps: seq<Project>)
  {
    forall i, j :: 0 <= i < j < |ps| ==> ps[i].path != ps[j].path
  }

  /** No element occurs twice. */
  ghost predicate NoDup<T>(s: seq<T>)
  {
    forall i, j :: 0 <= i < j < |s| ==> s[i] != s[j]
  }

  /** Projects are removed by id. */
  function ProjectId(p: Project): string
  {
    p.id
  }

  /** A panel is removed by the project id it holds. */
  function PanelId(id: string): string
  {
    id
  }

  /**
   * The elements whose key differs from `k`, in their original order: the
   * `filter` that removes a project by id and closes a panel by id.
   */
  function Without<T(==,!new), K(==)>(s: seq<T>, key: T -> K, k: K): (r: seq<T>)
    ensures |r| <= |s|
    ensures forall x :: x in r <==> x in s && key(x) != k
  {
    if s == [] then []
    else if key(s[0]) != k then [s[0]] + Without(s[1..], key, k)
    else Without(s[1..], key, k)
  }

  /**
   * The panels of a window, or none for a window that has no entry yet; when
   * every entry respects the cap and has no duplicates, so does the result.
   */
  function PanelsOf(panels: map<string, seq<string>>, windowId: string): (r: seq<string>)
    ensures (forall w :: w in panels ==> |panels[w]| <= MaxPanels && NoDup(panels[w])) ==>
              |r| <= MaxPanels && NoDup(r)
  {
    if windowId in panels then panels[windowId] else []
  }

  /** Removal distributes over concatenation: the survivors keep their relative order. */
  lemma {:induction false} WithoutAppend<T(!new), K>(a: seq<T>, b: seq<T>, key: T -> K, k: K)
    ensures Without(a + b, key, k) == Without(a, key, k) + Without(b, key, k)
  {
    if a == [] {
      assert a + b == b;
    } else {
      assert (a + b)[0] == a[0];
      assert (a + b)[1..] == a[1..] + b;
      WithoutAppend(a[1..], b, key, k);
    }
  }

  /** Removing a key that no element carries (an unknown project id, a closed panel) changes nothing. */
  lemma {:induction false} WithoutAbsent<T(!new), K>(s: seq<T>, key: T -> K, k: K)
    requires forall i :: 0 <= i < |s| ==> key(s[i]) != k
    ensures Without(s, key, k) == s
  {
    if s != [] {
      WithoutAbsent(s[1..], key, k);
    }
  }

  /** Removing projects never makes two paths collide. */
  lemma {:induction false} WithoutKeepsDistinctPaths(ps: seq<Project>, id: string)
    requires DistinctPaths(ps)
    ensures DistinctPaths(Without(ps, ProjectId, id))
  {
    if ps != [] {
      var tail := ps[1..];
      assert DistinctPaths(tail) by {
        forall i, j | 0 <= i < j < |tail| ensures tail[i].path != tail[j].path {
          assert tail[i] == ps[i + 1] && tail[j] == ps[j + 1];
        }
      }
      WithoutKeepsDistinctPaths(tail, id);
      var rest := Without(tail, ProjectId, id);
      if ProjectId(ps[0]) != id {
        var r := [ps[0]] + rest;
        forall j | 0 < j < |r| ensures r[0].path != r[j].path {
          assert r[j] in tail;
          var k :| 0 <= k < |tail| && tail[k] == r[j];
          assert tail[k] == ps[k + 1];
        }
        forall i, j | 0 <= i < j < |r| ensures r[i].path != r[j].path {
          if i > 0 {
            assert r[i] == rest[i - 1] && r[j] == rest[j - 1];
          }
        }
      }
    }
  }

  /** Appending a project with a new path keeps the paths distinct. */
  lemma AppendKeepsDistinctPaths(ps: seq<Project>, p: Project)
    requires DistinctPaths(ps)
    requires !HasPath(ps, p.path)
    ensures DistinctPaths(ps + [p])
  {
  }

  /**
   * Closing keeps a duplicate-free panel list duplicate-free, and frees
   * exactly one slot when the id was open, none otherwise.
   */
  lemma {:induction false} WithoutPanelCount(ids: seq<string>, id: string)
    requires NoDup(ids)
    ensures NoDup(Without(ids, PanelId, id))
    ensures |Without(ids, PanelId, id)| == if id in ids then |ids| - 1 else |ids|
  {
    if ids != [] {
      var tail := ids[1..];
      assert NoDup(tail) by {
        forall i, j | 0 <= i < j < |tail| ensures tail[i] != tail[j] {
          assert tail[i] == ids[i + 1] && tail[j] == ids[j + 1];
        }
      }
      assert ids[0] !in tail by {
        forall k | 0 <= k < |tail| ensures tail[k] != ids[0] {
          assert tail[k] == ids[k + 1];
        }
      }
      WithoutPanelCount(tail, id);
      var rest := Without(tail, PanelId, id);
      if ids[0] != id {
        var r := [ids[0]] + rest;
        forall i, j | 0 <= i < j < |r| ensures r[i] != r[j] {
          if i == 0 {
            assert r[j] in rest;
          } else {
            assert r[i] == rest[i - 1] && r[j] == rest[j - 1];
          }
        }
        assert id in ids <==> id in tail;
      } else {
        assert id !in tail;
      }
    }
  }

  /** Appending an id that is not yet open keeps a panel list duplicate-free. */
  lemma AppendKeepsNoDup(ids: seq<string>, id: string)
    requires NoDup(ids)
    requires id !in ids
    ensures NoDup(ids + [id])
  {
  }

  /** The single shared session state: projects, open panels per window, and the notifications fired. */
  class SyferAgentState {
    var projects: seq<Project>
    var activePanels: map<string, seq<string>>
    ghost var events: seq<Event>

    /** Paths are unique in the registry; every window holds at most MaxPanels distinct ids. */
    ghost predicate Valid()
      reads this
    {
      && DistinctPaths(projects)
      && forall w :: w in activePanels ==> |activePanels[w]| <= MaxPanels && NoDup(activePanels[w])
    }

    constructor ()
      ensures Valid()
      ensures projects == [] && activePanels == map[] && events == []
    {
      projects := [];
      activePanels := map[];
      events := [];
    }

    /** The registered projects, in insertion order. */
    method Projects() returns (r: seq<Project>)
      requires Valid()
      ensures r == projects
      ensures forall i, j :: 0 <= i < j < |r| ==> r[i].path != r[j].path
    {
      r := projects;
    }

    /**
     * Registers a project unless one with the same path is already there;
     * a new project goes at the end and is announced once.
     */
    method AddProject(project: Project)
      requires Valid()
      modifies this
      ensures Valid()
      ensures activePanels == old(activePanels)
      ensures HasPath(projects, project.path)
      ensures HasPath(old(projects), project.path) ==>
                projects == old(projects) && events == old(events)
      ensures !HasPath(old(projects), project.path) ==>
                projects == old(projects) + [project] &&
                events == old(events) + [ProjectsChanged(projects)]
    {
      if HasPath(projects, project.path) {
        return;
      }
      AppendKeepsDistinctPaths(projects, project);
      projects := projects + [project];
      assert project in projects;
      events := events + [ProjectsChanged(projects)];
    }

    /** Drops every project with this id, keeping the others in order, and always announces the list. */
    method RemoveProject(projectId: string)
      requires Valid()
      modifies this
      ensures Valid()
      ensures projects == Without(old(projects), ProjectId, projectId)
      ensures activePanels == old(activePanels)
      ensures events == old(events) + [ProjectsChanged(projects)]
    {
      WithoutKeepsDistinctPaths(projects, projectId);
      projects := Without(projects, ProjectId, projectId);
      events := events + [ProjectsChanged(projects)];
    }

    /** The panels open in a window, empty for a window never seen. */
    method GetActivePanels(windowId: string) returns (panelIds: seq<string>)
      ensures windowId in activePanels ==> panelIds == activePanels[windowId]
      ensures windowId !in activePanels ==> panelIds == []
      ensures Valid() ==> |panelIds| <= MaxPanels && NoDup(panelIds)
    {
      panelIds := PanelsOf(activePanels, windowId);
    }

    /**
     * Opens a project's panel in a window. An id already open is accepted
     * without change; a full window refuses a new id without change;
     * otherwise the id is appended and the window's panels are announced.
     */
    method OpenPanel(windowId: string, projectId: string) returns (accepted: bool)
      requires Valid()
      modifies this
      ensures Valid()
      ensures projects == old(projects)
      ensures accepted <==>
                projectId in old(PanelsOf(activePanels, windowId)) ||
                |old(PanelsOf(activePanels, windowId))| < MaxPanels
      ensures projectId in old(PanelsOf(activePanels, windowId)) ||
              |old(PanelsOf(activePanels, windowId))| >= MaxPanels ==>
                activePanels == old(activePanels) && events == old(events)
      ensures projectId !in old(PanelsOf(activePanels, windowId)) &&
              |old(PanelsOf(activePanels, windowId))| < MaxPanels ==>
                activePanels == old(activePanels)[windowId := old(PanelsOf(activePanels, windowId)) + [projectId]] &&
                events == old(events) + [PanelsChanged(windowId, activePanels[windowId])]
    {
      var current := PanelsOf(activePanels, windowId);
      if projectId in current {
        return true;
      }
      if |current| >= MaxPanels {
        return false;
      }
      AppendKeepsNoDup(current, projectId);
      activePanels := activePanels[windowId := current + [projectId]];
      events := events + [PanelsChanged(windowId, activePanels[windowId])];
      return true;
    }

    /**
     * Closes a project's panel in a window: the window's list becomes the
     * old one without that id (an entry is created for an unknown window),
     * and the window's panels are always announced.
     */
    method ClosePanel(windowId: string, projectId: string)
      requires Valid()
      modifies this
      ensures Valid()
      ensures projects == old(projects)
      ensures activePanels == old(activePanels)[windowId := Without(old(PanelsOf(activePanels, windowId)), PanelId, projectId)]
      ensures events == old(events) + [PanelsChanged(windowId, activePanels[windowId])]
    {
      var current := PanelsOf(activePanels, windowId);
      WithoutPanelCount(current, projectId);
      activePanels := activePanels[windowId := Without(current, PanelId, projectId)];
      events := events + [PanelsChanged(windowId, activePanels[windowId])];
    }
  }

  /**
   * A window that already holds three distinct panels refuses a fourth new
   * id and keeps its list; re-opening one of the three is accepted unchanged.
   */
  method FullWindowScenario(windowId: string, a: string, b: string, c: string, d: string)
    returns (fourth: bool, again: bool, panels: seq<string>)
    requires a != b && a != c && b != c
    requires d != a && d != b && d != c
    ensures !fourth && again
    ensures panels == [a, b, c]
  {
    var state := new SyferAgentState();
    var ok := state.OpenPanel(windowId, a);
    ok := state.OpenPanel(windowId, b);
    ok := state.OpenPanel(windowId, c);
    fourth := state.OpenPanel(windowId, d);
    again := state.OpenPanel(windowId, b);
    panels := state.GetActivePanels(windowId);
  }

  /** Closing the middle one of three distinct panel ids leaves the outer two, in order. */
  lemma CloseMiddle(a: string, b: string, c: string)
    requires a != b && c != b
    ensures Without([a, b, c], PanelId, b) == [a, c]
  {
    assert [a, b, c][1..] == [b, c] && [b, c][1..] == [c] && [c][1..] == [];
    assert Without([c], PanelId, b) == [c] + Without([], PanelId, b);
    assert Without([b, c], PanelId, b) == Without([c], PanelId, b);
    assert Without([a, b, c], PanelId, b) == [a] + Without([b, c], PanelId, b);
  }

  /** Closing a panel in a full window frees a slot, so the same id can be opened again, at the end. */
  method CloseThenReopenScenario(windowId: string, a: string, b: string, c: string)
    returns (reopened: bool, panels: seq<string>)
    requires a != b && a != c && b != c
    ensures reopened
    ensures panels == [a, c, b]
  {
    var state := new SyferAgentState();
    var ok := state.OpenPanel(windowId, a);
    ok := state.OpenPanel(windowId, b);
    ok := state.OpenPanel(windowId, c);
    assert state.activePanels[windowId] == [a, b, c];
    CloseMiddle(a, b, c);
    state.ClosePanel(windowId, b);
    assert state.activePanels[windowId] == [a, c];
    reopened := state.OpenPanel(windowId, b);
    panels := state.GetActivePanels(windowId);
  }

  /** Adding two projects with the same path (ids may differ) leaves one entry, the first. */
  method AddSamePathTwiceScenario(p: Project, q: Project) returns (registry: seq<Project>)
    requires p.path == q.path
    ensures registry == [p]
  {
    var state := new SyferAgentState();
    state.AddProject(p);
    state.AddProject(q);
    registry := state.Projects();
  }
}
