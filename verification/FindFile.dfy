/**
  The recursive file search. It lists a directory, returns a regular file of the wanted name at once, and otherwise
  searches the subdirectories and then the resolved symbolic links. A list of searched paths breaks cycles.
 */
module FindFile {
  datatype Kind = Directory | Symlink | Regular | Other

  datatype Entry = Entry(name: string, kind: Kind)

  /** A static file system: the listing of each path that opens, and the real path of each link that resolves. */
  datatype Disk = Disk(listing: map<string, seq<Entry>>, realpath: map<string, string>)

  function Child(p: string, name: string): (r: string)
    ensures r != ""
  {
    p + "/" + name
  }

  predicate Dots(name: string) {
    name == "." || name == ".."
  }

  // ----- what the search is about -----

  /** The search of `p` leads on to `q`. */
  ghost predicate Leads(disk: Disk, p: string, q: string) {
    p in disk.listing && exists i :: 0 <= i < |disk.listing[p]| && EntryLeads(disk, p, disk.listing[p][i], q)
  }

  predicate EntryLeads(disk: Disk, p: string, e: Entry, q: string) {
    && !Dots(e.name)
    && var path := Child(p, e.name);
       (e.kind.Directory? && q == path) || (e.kind.Symlink? && path in disk.realpath && q == disk.realpath[path])
  }

  predicate Matches(e: Entry, name: string) {
    !Dots(e.name) && e.kind.Regular? && e.name == name
  }

  /** `p` opens and holds a regular file called `name`. */
  ghost predicate Holds(disk: Disk, p: string, name: string) {
    p in disk.listing && exists i :: 0 <= i < |disk.listing[p]| && Matches(disk.listing[p][i], name)
  }

  ghost predicate Walk(disk: Disk, walk: seq<string>) {
    |walk| > 0 && forall i :: 0 < i < |walk| ==> Leads(disk, walk[i - 1], walk[i])
  }

  ghost predicate Reachable(disk: Disk, start: string, p: string) {
    exists walk :: Walk(disk, walk) && walk[0] == start && walk[|walk| - 1] == p
  }

  // ----- the order of the search -----

  datatype Outcome = Outcome(path: string, searched: seq<string>)

  /** The paths of the entries of one kind, in listing order. */
  function Under(p: string, entries: seq<Entry>, kind: Kind): seq<string> {
    if |entries| == 0 then [] else
      var before := Under(p, entries[..|entries| - 1], kind);
      var e := entries[|entries| - 1];
      if !Dots(e.name) && e.kind == kind then before + [Child(p, e.name)] else before
  }

  /** The real paths of the links that resolve. */
  function Resolved(disk: Disk, links: seq<string>): seq<string> {
    if |links| == 0 then []
    else if links[0] in disk.realpath then [disk.realpath[links[0]]] + Resolved(disk, links[1..])
    else Resolved(disk, links[1..])
  }

  function Onward(disk: Disk, p: string): seq<string>
    requires p in disk.listing
  {
    Under(p, disk.listing[p], Directory) + Resolved(disk, Under(p, disk.listing[p], Symlink))
  }

  predicate AnyMatch(entries: seq<Entry>, name: string) {
    exists i :: 0 <= i < |entries| && Matches(entries[i], name)
  }

  ghost function Unseen(disk: Disk, searched: seq<string>): set<string> {
    set p | p in disk.listing && p !in searched
  }

  lemma {:induction false} UnseenShrinks(disk: Disk, searched: seq<string>, more: seq<string>)
    requires searched <= more
    ensures Unseen(disk, more) <= Unseen(disk, searched)
  {
    forall p | p in searched ensures p in more {
      var i :| 0 <= i < |searched| && searched[i] == p;
      assert more[i] == p;
    }
  }

  ghost function Search(disk: Disk, name: string, searched: seq<string>, p: string): (r: Outcome)
    ensures searched <= r.searched
    decreases Unseen(disk, searched), 0
  {
    if p in searched then Outcome("", searched) else
      var more := searched + [p];
      if p !in disk.listing then Outcome("", more)
      else if AnyMatch(disk.listing[p], name) then Outcome(Child(p, name), more)
      else
        UnseenShrinks(disk, searched, more);
        assert p in Unseen(disk, searched) && p !in Unseen(disk, more);
        SearchAll(disk, name, more, Onward(disk, p))
  }

  ghost function SearchAll(disk: Disk, name: string, searched: seq<string>, paths: seq<string>): (r: Outcome)
    ensures searched <= r.searched
    decreases Unseen(disk, searched), |paths|
  {
    if |paths| == 0 then Outcome("", searched) else
      var r := Search(disk, name, searched, paths[0]);
      UnseenShrinks(disk, searched, r.searched);
      if r.path != "" then r else SearchAll(disk, name, r.searched, paths[1..])
  }

  // ----- a returned path is right -----

  lemma {:induction false} UnderComesFrom(p: string, entries: seq<Entry>, kind: Kind, q: string)
    ensures q in Under(p, entries, kind)
      <==> exists i ::
             0 <= i < |entries| && !Dots(entries[i].name) && entries[i].kind == kind && q == Child(p, entries[i].name)
  {
    if |entries| > 0 {
      var init, e := entries[..|entries| - 1], entries[|entries| - 1];
      UnderComesFrom(p, init, kind, q);
      if i :|
        0 <= i < |entries| && !Dots(entries[i].name) && entries[i].kind == kind && q == Child(p, entries[i].name)
      {
        if i < |init| {
          assert init[i] == entries[i];
        }
      }
    }
  }

  lemma {:induction false} ResolvedComesFrom(disk: Disk, links: seq<string>, q: string)
    ensures q in Resolved(disk, links) <==>
      exists i :: 0 <= i < |links| && links[i] in disk.realpath && disk.realpath[links[i]] == q
  {
    if |links| > 0 {
      ResolvedComesFrom(disk, links[1..], q);
      if i :| 0 <= i < |links| && links[i] in disk.realpath && disk.realpath[links[i]] == q {
        if i > 0 {
          assert links[1..][i - 1] == links[i];
        }
      }
    }
  }

  /** The search goes on to exactly the paths its directory leads to. */
  lemma {:induction false} OnwardIsLeads(disk: Disk, p: string, q: string)
    requires p in disk.listing
    ensures q in Onward(disk, p) <==> Leads(disk, p, q)
  {
    var entries := disk.listing[p];
    var links := Under(p, entries, Symlink);
    UnderComesFrom(p, entries, Directory, q);
    ResolvedComesFrom(disk, links, q);
    if q in Resolved(disk, links) {
      var i :| 0 <= i < |links| && links[i] in disk.realpath && disk.realpath[links[i]] == q;
      UnderComesFrom(p, entries, Symlink, links[i]);
      var j :| 0 <= j < |entries| && !Dots(entries[j].name) && entries[j].kind == Symlink &&
        links[i] == Child(p, entries[j].name);
      assert EntryLeads(disk, p, entries[j], q);
    }
    if q in Under(p, entries, Directory) {
      var j :| 0 <= j < |entries| && !Dots(entries[j].name) && entries[j].kind == Directory &&
        q == Child(p, entries[j].name);
      assert EntryLeads(disk, p, entries[j], q);
    }
    if Leads(disk, p, q) {
      var i :| 0 <= i < |entries| && EntryLeads(disk, p, entries[i], q);
      if entries[i].kind == Symlink {
        UnderComesFrom(p, entries, Symlink, Child(p, entries[i].name));
      }
    }
  }

  lemma {:induction false} ReachOn(disk: Disk, start: string, p: string, q: string)
    requires Reachable(disk, start, p) && Leads(disk, p, q)
    ensures Reachable(disk, start, q)
  {
    var walk :| Walk(disk, walk) && walk[0] == start && walk[|walk| - 1] == p;
    var longer := walk + [q];
    assert Walk(disk, longer) && longer[0] == start && longer[|longer| - 1] == q;
  }

  /** `path` names a wanted file in a reachable directory. */
  ghost predicate Sound(disk: Disk, name: string, start: string, path: string) {
    exists p :: Reachable(disk, start, p) && Holds(disk, p, name) && path == Child(p, name)
  }

  lemma {:induction false} SearchIsSound(disk: Disk, name: string, start: string, searched: seq<string>, p: string)
    requires Reachable(disk, start, p)
    ensures var r := Search(disk, name, searched, p); r.path != "" ==> Sound(disk, name, start, r.path)
    decreases Unseen(disk, searched), 0
  {
    if p !in searched && p in disk.listing {
      var more := searched + [p];
      UnseenShrinks(disk, searched, more);
      assert p in Unseen(disk, searched) && p !in Unseen(disk, more);
      if AnyMatch(disk.listing[p], name) {
        assert Holds(disk, p, name);
      } else {
        forall q | q in Onward(disk, p) ensures Reachable(disk, start, q) {
          OnwardIsLeads(disk, p, q);
          ReachOn(disk, start, p, q);
        }
        SearchAllIsSound(disk, name, start, more, Onward(disk, p));
      }
    }
  }

  lemma {:induction false} SearchAllIsSound(disk: Disk, name: string, start: string, searched: seq<string>,
                                            paths: seq<string>)
    requires forall q :: q in paths ==> Reachable(disk, start, q)
    ensures var r := SearchAll(disk, name, searched, paths); r.path != "" ==> Sound(disk, name, start, r.path)
    decreases Unseen(disk, searched), |paths|
  {
    if |paths| > 0 {
      SearchIsSound(disk, name, start, searched, paths[0]);
      var r := Search(disk, name, searched, paths[0]);
      if r.path == "" {
        UnseenShrinks(disk, searched, r.searched);
        SearchAllIsSound(disk, name, start, r.searched, paths[1..]);
      }
    }
  }

  // ----- an empty result is right -----

  /** `p` does not hold the file and everything it leads to is in `searched`. */
  ghost predicate Clear(disk: Disk, name: string, p: string, searched: seq<string>) {
    !Holds(disk, p, name) && forall q :: Leads(disk, p, q) ==> q in searched
  }

  /** Everything searched between `before` and `after` is clear. */
  ghost predicate AllClear(disk: Disk, name: string, before: seq<string>, after: seq<string>) {
    forall p :: p in after && p !in before ==> Clear(disk, name, p, after)
  }

  lemma {:induction false} AllClearJoins(disk: Disk, name: string, a: seq<string>, b: seq<string>, c: seq<string>)
    requires b <= c && AllClear(disk, name, a, b) && AllClear(disk, name, b, c)
    ensures AllClear(disk, name, a, c)
  {
    forall p | p in c && p !in a ensures Clear(disk, name, p, c) {
      if p in b {
        forall q | Leads(disk, p, q) ensures q in c {
          StillSearched(b, c, q);
        }
      }
    }
  }

  lemma {:induction false} StillSearched(b: seq<string>, c: seq<string>, q: string)
    requires b <= c && q in b
    ensures q in c
  {
    var i :| 0 <= i < |b| && b[i] == q;
    assert c[i] == q;
  }

  lemma {:induction false} EmptySearchIsClear(disk: Disk, name: string, searched: seq<string>, p: string)
    requires Search(disk, name, searched, p).path == ""
    ensures var r := Search(disk, name, searched, p); p in r.searched && AllClear(disk, name, searched, r.searched)
    decreases Unseen(disk, searched), 0
  {
    if p !in searched && p in disk.listing {
      var more := searched + [p];
      UnseenShrinks(disk, searched, more);
      assert p in Unseen(disk, searched) && p !in Unseen(disk, more);
      EmptySearchAllIsClear(disk, name, more, Onward(disk, p));
      var after := Search(disk, name, searched, p).searched;
      StillSearched(more, after, p);
      forall q | Leads(disk, p, q) ensures q in after {
        OnwardIsLeads(disk, p, q);
      }
      assert Clear(disk, name, p, after);
    }
  }

  lemma {:induction false} EmptySearchAllIsClear(disk: Disk, name: string, searched: seq<string>, paths: seq<string>)
    requires SearchAll(disk, name, searched, paths).path == ""
    ensures var r := SearchAll(disk, name, searched, paths);
      (forall q :: q in paths ==> q in r.searched) && AllClear(disk, name, searched, r.searched)
    decreases Unseen(disk, searched), |paths|
  {
    if |paths| > 0 {
      EmptySearchIsClear(disk, name, searched, paths[0]);
      var r := Search(disk, name, searched, paths[0]);
      UnseenShrinks(disk, searched, r.searched);
      EmptySearchAllIsClear(disk, name, r.searched, paths[1..]);
      var after := SearchAll(disk, name, searched, paths).searched;
      AllClearJoins(disk, name, searched, r.searched, after);
      StillSearched(r.searched, after, paths[0]);
      assert paths == [paths[0]] + paths[1..];
    }
  }

  lemma {:induction false} WalkStaysSearched(disk: Disk, name: string, searched: seq<string>, walk: seq<string>)
    requires AllClear(disk, name, [], searched) && Walk(disk, walk) && walk[0] in searched
    ensures walk[|walk| - 1] in searched
    decreases |walk|
  {
    if |walk| > 1 {
      var init := walk[..|walk| - 1];
      WalkStaysSearched(disk, name, searched, init);
      assert Leads(disk, init[|init| - 1], walk[|walk| - 1]);
    }
  }

  /** The search finds a file exactly when some reachable directory holds one, and what it returns names such a file. */
  lemma {:induction false} FindsIff(disk: Disk, name: string, start: string)
    ensures var r := Search(disk, name, [], start);
      && (r.path != "" ==> Sound(disk, name, start, r.path))
      && (r.path == "" <==> !exists p :: Reachable(disk, start, p) && Holds(disk, p, name))
  {
    var r := Search(disk, name, [], start);
    assert Walk(disk, [start]);
    assert Reachable(disk, start, start);
    SearchIsSound(disk, name, start, [], start);
    if r.path == "" {
      EmptySearchIsClear(disk, name, [], start);
      forall p | Reachable(disk, start, p) ensures !Holds(disk, p, name) {
        var walk :| Walk(disk, walk) && walk[0] == start && walk[|walk| - 1] == p;
        WalkStaysSearched(disk, name, r.searched, walk);
      }
    }
  }

  // ----- the search in place -----

  lemma {:induction false} SearchAllNext(disk: Disk, name: string, searched: seq<string>, paths: seq<string>)
    requires |paths| > 0
    ensures var r := Search(disk, name, searched, paths[0]);
      SearchAll(disk, name, searched, paths) ==
      if r.path != "" then r else SearchAll(disk, name, r.searched, paths[1..])
  {
  }

  class Finder {
    var searched: seq<string>

    constructor ()
      ensures searched == []
    {
      searched := [];
    }

    method FindInternal(disk: Disk, name: string, p: string) returns (path: string)
      modifies this
      ensures Outcome(path, searched) == Search(disk, name, old(searched), p)
      decreases Unseen(disk, searched), 0
    {
      if p in searched {
        return "";
      }
      searched := searched + [p];
      UnseenShrinks(disk, old(searched), searched);
      if p !in disk.listing {
        return "";
      }
      assert p in Unseen(disk, old(searched)) && p !in Unseen(disk, searched);
      var found, dirs, links := List(disk, name, p);
      if found {
        return Child(p, name);
      }
      ghost var later := Resolved(disk, links);
      var i := 0;
      while i < |dirs|
        invariant i <= |dirs| && old(searched) + [p] <= searched
        invariant Search(disk, name, old(searched), p) == SearchAll(disk, name, searched, dirs[i..] + later)
      {
        ghost var before := searched;
        UnseenShrinks(disk, old(searched) + [p], searched);
        SearchAllNext(disk, name, searched, dirs[i..] + later);
        path := FindInternal(disk, name, dirs[i]);
        if path != "" {
          return;
        }
        assert (dirs[i..] + later)[1..] == dirs[i + 1..] + later;
        i := i + 1;
      }
      assert dirs[i..] + later == later;
      path := SearchLinks(disk, name, links, old(searched) + [p]);
    }

    method SearchLinks(disk: Disk, name: string, links: seq<string>, ghost base: seq<string>) returns (path: string)
      requires base <= searched
      modifies this
      ensures Outcome(path, searched) == SearchAll(disk, name, old(searched), Resolved(disk, links))
      decreases Unseen(disk, base), |links| + 1
    {
      var i := 0;
      while i < |links|
        invariant i <= |links| && base <= searched
        invariant SearchAll(disk, name, old(searched), Resolved(disk, links)) ==
          SearchAll(disk, name, searched, Resolved(disk, links[i..]))
      {
        assert links[i..][0] == links[i] && links[i..][1..] == links[i + 1..];
        if links[i] in disk.realpath {
          UnseenShrinks(disk, base, searched);
          SearchAllNext(disk, name, searched, Resolved(disk, links[i..]));
          path := FindInternal(disk, name, disk.realpath[links[i]]);
          if path != "" {
            return;
          }
        }
        i := i + 1;
      }
      path := "";
    }

    /** One pass over a directory: stops at a match, otherwise collects directories and links. */
    method List(disk: Disk, name: string, p: string) returns (found: bool, dirs: seq<string>, links: seq<string>)
      requires p in disk.listing
      ensures found == AnyMatch(disk.listing[p], name)
      ensures !found ==> dirs == Under(p, disk.listing[p], Directory) && links == Under(p, disk.listing[p], Symlink)
    {
      var entries := disk.listing[p];
      dirs, links := [], [];
      var i := 0;
      while i < |entries|
        invariant i <= |entries| && !AnyMatch(entries[..i], name)
        invariant dirs == Under(p, entries[..i], Directory) && links == Under(p, entries[..i], Symlink)
      {
        var e := entries[i];
        assert entries[..i + 1][..i] == entries[..i];
        if !Dots(e.name) {
          if e.kind.Directory? {
            dirs := dirs + [Child(p, e.name)];
          } else if e.kind.Symlink? {
            links := links + [Child(p, e.name)];
          } else if e.kind.Regular? && e.name == name {
            assert Matches(entries[i], name);
            return true, dirs, links;
          }
        }
        i := i + 1;
      }
      assert entries[..i] == entries;
      found := false;
    }
  }

  /** A search from scratch: the path of a reachable file of that name, or "" exactly when there is none. */
  method Find(disk: Disk, name: string, start: string) returns (path: string)
    ensures path != "" ==> Sound(disk, name, start, path)
    ensures path == "" <==> !exists p :: Reachable(disk, start, p) && Holds(disk, p, name)
  {
    var finder := new Finder();
    path := finder.FindInternal(disk, name, start);
    FindsIff(disk, name, start);
  }
}
