/** Project discovery: a depth-first walk of the workspace tree from the
    projects root, reporting every directory that holds a manifest, with
    the workspace prefix removed from the reported path. */
module Discovery {
  import opened Wrappers
  import opened JsStrings
  import opened Workspace

  /** Some key of the listing (file or directory) ends with the manifest name. */
  predicate HasManifest(listing: seq<Entry>) {
    exists i :: 0 <= i < |listing| && EndsWith(listing[i].key, ManifestName)
  }

  /** The path the walk lists next for a directory key. */
  function ChildPath(current: string, key: string): string {
    current + "/" + LastSegment(key)
  }

  /** A directory path as reported: its first `browser/` removed. */
  function ProjectName(path: string): string {
    RemoveFirst(path, BrowserPrefix)
  }

  /** The walk from `path`, whose `readdir` gives `listing`: the directory
      itself first if it qualifies, then the walks of its directory entries
      in listing order. */
  function Discover(path: string, listing: seq<Entry>): seq<string>
    decreases listing, 1
  {
    (if HasManifest(listing) then [ProjectName(path)] else [])
    + DiscoverEntries(path, listing)
  }

  function DiscoverEntries(path: string, entries: seq<Entry>): seq<string>
    decreases entries, 0
  {
    if entries == [] then []
    else DiscoverEntry(path, entries[0]) + DiscoverEntries(path, entries[1..])
  }

  /** A file entry contributes nothing; a directory entry its whole walk. */
  function DiscoverEntry(path: string, e: Entry): seq<string>
    decreases e, 2
  {
    match e
    case FileEntry(_) => []
    case DirEntry(key, sub) => Discover(ChildPath(path, key), sub)
  }

  /** The project list shown after a refresh; without a client it is empty. */
  function ListProjects(hasClient: bool, root: seq<Entry>): seq<string> {
    if hasClient then Discover(ProjectsRoot, root) else []
  }

  /** `projects[0] || ''`: the target project selected after a refresh. */
  function DefaultTarget(projects: seq<string>): (target: string)
    ensures target == "" || target in projects
    ensures |projects| > 0 ==> target == projects[0]
    ensures |projects| == 0 ==> target == ""
  {
    if |projects| > 0 then projects[0] else ""
  }

  // An independent description of the walk: routes through the tree.

  /** The directory reached from `(path, listing)` by descending, at each
      step, into the directory entry with the given index. */
  function Follow(path: string, listing: seq<Entry>, route: seq<nat>): Option<(string, seq<Entry>)>
    decreases route
  {
    if route == [] then Some((path, listing))
    else if route[0] < |listing| && listing[route[0]].DirEntry? then
      Follow(ChildPath(path, listing[route[0]].key), listing[route[0]].listing, route[1..])
    else None
  }

  /** The directory at `route` qualifies and is reported as `name`. */
  predicate Reports(path: string, listing: seq<Entry>, route: seq<nat>, name: string) {
    match Follow(path, listing, route)
    case Some((p, l)) => HasManifest(l) && name == ProjectName(p)
    case None => false
  }

  predicate InfixAt(small: seq<string>, big: seq<string>, i: int) {
    0 <= i && i + |small| <= |big| && big[i..i + |small|] == small
  }

  /** A qualifying directory is reported before everything beneath it. */
  lemma RootFirst(path: string, listing: seq<Entry>)
    requires HasManifest(listing)
    ensures |Discover(path, listing)| > 0 && Discover(path, listing)[0] == ProjectName(path)
  {
  }

  lemma InfixExtend(small: seq<string>, big: seq<string>, pre: seq<string>, post: seq<string>, j: int)
    requires InfixAt(small, big, j)
    ensures InfixAt(small, pre + big + post, |pre| + j)
  {
    assert (pre + big + post)[|pre| + j..|pre| + j + |small|] == big[j..j + |small|];
  }

  lemma InfixTrans(a: seq<string>, b: seq<string>, c: seq<string>, j: int, k: int)
    requires InfixAt(a, b, j) && InfixAt(b, c, k)
    ensures InfixAt(a, c, k + j)
  {
    forall t | 0 <= t < |a|
      ensures c[k + j + t] == a[t]
    {
      assert c[k..k + |b|][j + t] == b[j + t];
      assert b[j..j + |a|][t] == a[t];
    }
    assert c[k + j..k + j + |a|] == a;
  }

  lemma {:induction false} EntryInfix(path: string, entries: seq<Entry>, i: nat)
    requires i < |entries| && entries[i].DirEntry?
    ensures exists j :: InfixAt(Discover(ChildPath(path, entries[i].key), entries[i].listing),
                                DiscoverEntries(path, entries), j)
    decreases i
  {
    var sub := Discover(ChildPath(path, entries[i].key), entries[i].listing);
    var head := DiscoverEntry(path, entries[0]);
    var rest := DiscoverEntries(path, entries[1..]);
    assert DiscoverEntries(path, entries) == head + rest;
    if i == 0 {
      assert head == sub;
      assert InfixAt(sub, sub, 0);
      InfixExtend(sub, sub, [], rest, 0);
    } else {
      EntryInfix(path, entries[1..], i - 1);
      assert entries[1..][i - 1] == entries[i];
      var j :| InfixAt(sub, rest, j);
      InfixExtend(sub, rest, head, [], j);
      assert head + rest + [] == head + rest;
    }
  }

  /** The walk of any reachable directory is a contiguous block of the
      whole walk: a directory's report is immediately followed by the
      reports of all its descendants (pre-order). */
  lemma {:induction false} SubtreeIsBlock(path: string, listing: seq<Entry>, route: seq<nat>)
    requires Follow(path, listing, route).Some?
    ensures exists j :: InfixAt(Discover(Follow(path, listing, route).value.0,
                                         Follow(path, listing, route).value.1),
                                Discover(path, listing), j)
    decreases route
  {
    var all := Discover(path, listing);
    if route == [] {
      assert InfixAt(all, all, 0);
    } else {
      var e := listing[route[0]];
      var child := ChildPath(path, e.key);
      assert Follow(path, listing, route) == Follow(child, e.listing, route[1..]);
      SubtreeIsBlock(child, e.listing, route[1..]);
      var target := Follow(path, listing, route).value;
      var sub := Discover(target.0, target.1);
      var mid := Discover(child, e.listing);
      var j :| InfixAt(sub, mid, j);
      EntryInfix(path, listing, route[0]);
      var entries := DiscoverEntries(path, listing);
      var k :| InfixAt(mid, entries, k);
      InfixTrans(sub, mid, entries, j, k);
      var root := if HasManifest(listing) then [ProjectName(path)] else [];
      assert all == root + entries + [];
      InfixExtend(sub, entries, root, [], k + j);
    }
  }

  /** Every qualifying directory, at any depth and whether or not an
      ancestor qualified, is reported. */
  lemma Complete(path: string, listing: seq<Entry>, route: seq<nat>, name: string)
    requires Reports(path, listing, route, name)
    ensures name in Discover(path, listing)
  {
    var (p, l) := Follow(path, listing, route).value;
    SubtreeIsBlock(path, listing, route);
    RootFirst(p, l);
    var all := Discover(path, listing);
    var j :| InfixAt(Discover(p, l), all, j);
    assert all[j] == Discover(p, l)[0];
  }

  lemma {:induction false} Sound(path: string, listing: seq<Entry>, name: string)
    requires name in Discover(path, listing)
    ensures exists route :: Reports(path, listing, route, name)
    decreases listing, 1
  {
    if HasManifest(listing) && name == ProjectName(path) {
      assert Reports(path, listing, [], name);
    } else {
      SoundEntries(path, listing, listing, name);
    }
  }

  lemma {:induction false} SoundEntries(path: string, listing: seq<Entry>, entries: seq<Entry>, name: string)
    requires |entries| <= |listing| && entries == listing[|listing| - |entries|..]
    requires name in DiscoverEntries(path, entries)
    ensures exists route :: Reports(path, listing, route, name)
    decreases entries, 0
  {
    var rest := DiscoverEntries(path, entries[1..]);
    if name in rest {
      SoundEntries(path, listing, entries[1..], name);
    } else {
      var i := |listing| - |entries|;
      assert listing[i] == entries[0];
      var e := entries[0];
      var child := ChildPath(path, e.key);
      Sound(child, e.listing, name);
      var r :| Reports(child, e.listing, r, name);
      assert ([i] + r)[1..] == r;
      assert Reports(path, listing, [i] + r, name);
    }
  }

  /** Discovery reports exactly the names of the qualifying directories
      reachable from the root. */
  lemma DiscoverCharacterized(path: string, listing: seq<Entry>, name: string)
    ensures name in Discover(path, listing) <==> exists route :: Reports(path, listing, route, name)
  {
    if name in Discover(path, listing) {
      Sound(path, listing, name);
    }
    if exists route :: Reports(path, listing, route, name) {
      var route :| Reports(path, listing, route, name);
      Complete(path, listing, route, name);
    }
  }

  /** Every path the walk reaches extends the path it started from. */
  lemma {:induction false} FollowExtends(path: string, listing: seq<Entry>, route: seq<nat>)
    requires Follow(path, listing, route).Some?
    ensures StartsWith(Follow(path, listing, route).value.0, path)
    decreases route
  {
    if route != [] {
      var e := listing[route[0]];
      var child := ChildPath(path, e.key);
      FollowExtends(child, e.listing, route[1..]);
      assert child[..|path|] == path;
    }
  }

  /** From the projects root, a reported name is the directory's path with
      the leading `browser/` dropped. */
  lemma ReportedUnderWorkspace(root: seq<Entry>, route: seq<nat>, name: string)
    requires Reports(ProjectsRoot, root, route, name)
    ensures BrowserPrefix + name == Follow(ProjectsRoot, root, route).value.0
  {
    var p := Follow(ProjectsRoot, root, route).value.0;
    FollowExtends(ProjectsRoot, root, route);
    assert StartsWith(p, BrowserPrefix) by {
      assert p[..|BrowserPrefix|] == ProjectsRoot[..|BrowserPrefix|];
    }
    RemoveFirstOfPrefix(p, BrowserPrefix);
  }

  /** After a refresh the target is the first project found, and it is
      empty exactly when no directory under the root qualifies. */
  lemma RefreshTarget(root: seq<Entry>)
    ensures var projects := ListProjects(true, root);
            (DefaultTarget(projects) == "" <==> forall route, name :: !Reports(ProjectsRoot, root, route, name))
            && (|projects| > 0 ==> DefaultTarget(projects) == projects[0])
  {
    var projects := ListProjects(true, root);
    if |projects| > 0 {
      var name := projects[0];
      Sound(ProjectsRoot, root, name);
      var route :| Reports(ProjectsRoot, root, route, name);
      ReportedUnderWorkspace(root, route, name);
      FollowExtends(ProjectsRoot, root, route);
      assert |name| >= |ProjectsRoot| - |BrowserPrefix|;
    } else {
      forall route, name | Reports(ProjectsRoot, root, route, name)
        ensures false
      {
        Complete(ProjectsRoot, root, route, name);
      }
    }
  }
}
