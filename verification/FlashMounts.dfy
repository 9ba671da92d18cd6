/**
  Releasing the mounts that stand on selected devices and putting them back: the plan is closed under
  subtrees, unmounting goes deepest first, restoring goes the other way.
 */
module FlashMounts {
  import opened Wrappers

  /** One mount; `propagation` 0 marks a peer relation that cannot be recreated. */
  datatype FlashMount =
    FlashMount(device: nat, root: string, target: string, fstype: string, flags: set<string>, propagation: nat)

  // ----- paths -----

  predicate BelowMount(path: string, parent: string) {
    path == parent || (|path| > |parent| && path[..|parent|] == parent && path[|parent|] == '/')
  }

  /** The parts of a path between slashes. */
  function Components(path: string): (parts: seq<string>)
    ensures |parts| > 0
  {
    if path == "" then [""]
    else
      var rest := Components(path[1..]);
      if path[0] == '/' then [""] + rest else [[path[0]] + rest[0]] + rest[1..]
  }

  lemma {:induction false} BelowTail(path: string, parent: string)
    requires path != "" && parent != "" && path[0] == parent[0]
    ensures BelowMount(path, parent) <==> BelowMount(path[1..], parent[1..])
  {
    assert path == [path[0]] + path[1..] && parent == [parent[0]] + parent[1..];
    if |path| > |parent| {
      assert path[..|parent|] == [path[0]] + path[1..][..|parent| - 1];
    }
  }

  lemma {:induction false} FirstComponent(path: string)
    ensures Components(path)[0] == "" <==> path == "" || path[0] == '/'
    ensures path != "" && path[0] != '/' ==> Components(path)[0] != "" && Components(path)[0][0] == path[0]
  {
    if path != "" && path[0] != '/' {
      assert Components(path)[0] == [path[0]] + Components(path[1..])[0];
    }
  }

  /** A path is below a mount exactly when the mount's components begin the path's. */
  lemma {:induction false} BelowIsComponentPrefix(path: string, parent: string)
    ensures BelowMount(path, parent) <==> Components(parent) <= Components(path)
    decreases |parent|
  {
    if path != "" && parent != "" {
      var p, q := Components(path[1..]), Components(parent[1..]);
      if path[0] == parent[0] {
        BelowIsComponentPrefix(path[1..], parent[1..]);
        BelowTail(path, parent);
        if path[0] == '/' {
          PrefixUnderHead("", "", q, p);
        } else {
          PrefixUnderHead([parent[0]] + q[0], [path[0]] + p[0], q[1..], p[1..]);
          PrefixUnderHead(q[0], p[0], q[1..], p[1..]);
          assert [q[0]] + q[1..] == q && [p[0]] + p[1..] == p;
          assert ([parent[0]] + q[0])[1..] == q[0] && ([path[0]] + p[0])[1..] == p[0];
        }
      } else {
        FirstComponent(path);
        FirstComponent(parent);
        assert Components(parent)[0] != Components(path)[0];
      }
    } else if parent == "" {
      FirstComponent(path);
      assert path != "" ==> path[..0] == parent;
    } else {
      FirstComponent(parent);
      assert |Components(parent)| > 1 || Components(parent)[0] != "";
    }
  }

  lemma {:induction false} PrefixUnderHead(a: string, b: string, s: seq<string>, t: seq<string>)
    ensures [a] + s <= [b] + t <==> a == b && s <= t
  {
    if [a] + s <= [b] + t {
      assert ([a] + s)[0] == ([b] + t)[0];
      assert ([a] + s)[1..] == s && ([b] + t)[1..] == t;
    }
  }

  lemma {:induction false} BelowIsPartialOrder(a: string, b: string, c: string)
    ensures BelowMount(a, a)
    ensures BelowMount(a, b) && BelowMount(b, a) ==> a == b
    ensures BelowMount(a, b) && BelowMount(b, c) ==> BelowMount(a, c)
  {
    if BelowMount(a, b) && BelowMount(b, c) && a != b && b != c {
      assert a[..|c|] == a[..|b|][..|c|];
      assert a[|c|] == a[..|b|][|c|];
    }
  }

  // ----- the plan -----

  predicate Rooted(all: seq<FlashMount>, devices: set<nat>, m: FlashMount) {
    exists i :: 0 <= i < |all| && all[i].device in devices && BelowMount(m.target, all[i].target)
  }

  /** The mounts of `ms` at or below a mount of a selected device. */
  ghost function Closure(ms: seq<FlashMount>, all: seq<FlashMount>, devices: set<nat>): seq<FlashMount> {
    if |ms| == 0 then [] else
      var last := ms[|ms| - 1];
      Closure(ms[..|ms| - 1], all, devices) + if Rooted(all, devices, last) then [last] else []
  }

  predicate DeepestFirst(s: seq<FlashMount>) {
    forall i, j :: 0 <= i < j < |s| ==> |s[i].target| >= |s[j].target|
  }

  predicate DistinctTargets(s: seq<FlashMount>) {
    forall i, j :: 0 <= i < j < |s| ==> s[i].target != s[j].target
  }

  /** No root, stacked or shared-slave mount among those to release. */
  predicate Acceptable(s: seq<FlashMount>) {
    (forall i :: 0 <= i < |s| ==> s[i].target != "/" && s[i].propagation != 0) && DistinctTargets(s)
  }

  ghost predicate Releasable(all: seq<FlashMount>, devices: set<nat>) {
    Acceptable(Closure(all, all, devices))
  }

  /** `plan` lists the closure, deepest first. */
  ghost predicate IsPlan(all: seq<FlashMount>, devices: set<nat>, plan: seq<FlashMount>) {
    && Releasable(all, devices)
    && multiset(plan) == multiset(Closure(all, all, devices))
    && DeepestFirst(plan)
  }

  lemma {:induction false} ClosureCount(ms: seq<FlashMount>, all: seq<FlashMount>, devices: set<nat>, m: FlashMount)
    ensures multiset(Closure(ms, all, devices))[m] == if Rooted(all, devices, m) then multiset(ms)[m] else 0
  {
    if |ms| > 0 {
      assert ms == ms[..|ms| - 1] + [ms[|ms| - 1]];
      ClosureCount(ms[..|ms| - 1], all, devices, m);
    }
  }

  lemma {:induction false} InMultiset<T>(s: seq<T>, x: T)
    ensures multiset(s)[x] > 0 <==> x in s
  {
  }

  lemma {:induction false} InClosure(all: seq<FlashMount>, devices: set<nat>, m: FlashMount)
    ensures m in Closure(all, all, devices) <==> m in all && Rooted(all, devices, m)
  {
    ClosureCount(all, all, devices, m);
    InMultiset(all, m);
    InMultiset(Closure(all, all, devices), m);
  }

  /** The plan holds exactly the mounts at or below a mount of a selected device. */
  lemma {:induction false} PlanIsClosure(all: seq<FlashMount>, devices: set<nat>, plan: seq<FlashMount>, m: FlashMount)
    requires IsPlan(all, devices, plan)
    ensures m in plan <==> m in all && Rooted(all, devices, m)
    ensures m in plan ==> m.target != "/"
  {
    InClosure(all, devices, m);
    InMultiset(plan, m);
    InMultiset(Closure(all, all, devices), m);
  }

  lemma {:induction false} PlanHasDistinctTargets(all: seq<FlashMount>, devices: set<nat>, plan: seq<FlashMount>)
    requires IsPlan(all, devices, plan)
    ensures DistinctTargets(plan)
  {
    var closure := Closure(all, all, devices);
    forall i, j | 0 <= i < j < |plan| ensures plan[i].target != plan[j].target {
      InMultiset(closure, plan[i]);
      InMultiset(closure, plan[j]);
      InMultiset(plan, plan[i]);
      InMultiset(plan, plan[j]);
      var a :| 0 <= a < |closure| && closure[a] == plan[i];
      var b :| 0 <= b < |closure| && closure[b] == plan[j];
      if a == b {
        TwiceInMultiset(plan, i, j);
        OnceInMultiset(closure, a);
      }
    }
  }

  /** In the plan every mount comes before the mounts it stands on. */
  lemma {:induction false} DescendantsFirst(all: seq<FlashMount>, devices: set<nat>, plan: seq<FlashMount>, i: nat,
                                            j: nat)
    requires IsPlan(all, devices, plan) && i < |plan| && j < |plan|
    requires i != j && BelowMount(plan[i].target, plan[j].target)
    ensures i < j
  {
    PlanHasDistinctTargets(all, devices, plan);
  }

  /** Two mounts with one target cannot both be in the table when one of them is planned. */
  lemma {:induction false} PlannedTargetIsUnique(all: seq<FlashMount>, devices: set<nat>, m: FlashMount, k: FlashMount)
    requires Releasable(all, devices) && m in all && k in all && Rooted(all, devices, m) && m.target == k.target
    ensures m == k
  {
    assert Rooted(all, devices, k);
    InClosure(all, devices, m);
    InClosure(all, devices, k);
  }

  lemma {:induction false} InsertedAt(r: seq<FlashMount>, m: FlashMount, at: nat)
    requires DeepestFirst(r) && at <= |r|
    requires forall k :: 0 <= k < at ==> |r[k].target| >= |m.target|
    requires at < |r| ==> |r[at].target| < |m.target|
    ensures DeepestFirst(r[..at] + [m] + r[at..])
  {
    var r' := r[..at] + [m] + r[at..];
    forall k | at < k < |r'| ensures r'[k] == r[k - 1] && |r'[k].target| < |m.target| {
    }
  }

  lemma {:induction false} InsertedCount(r: seq<FlashMount>, m: FlashMount, at: nat)
    requires at <= |r|
    ensures multiset(r[..at] + [m] + r[at..]) == multiset(r) + multiset{m}
  {
    assert r == r[..at] + r[at..];
  }

  method Insert(r: seq<FlashMount>, m: FlashMount) returns (r': seq<FlashMount>)
    requires DeepestFirst(r)
    ensures multiset(r') == multiset(r) + multiset{m} && DeepestFirst(r')
  {
    var at := 0;
    while at < |r| && |r[at].target| >= |m.target|
      invariant 0 <= at <= |r| && forall k :: 0 <= k < at ==> |r[k].target| >= |m.target|
    {
      at := at + 1;
    }
    InsertedAt(r, m, at);
    InsertedCount(r, m, at);
    r' := r[..at] + [m] + r[at..];
  }

  method SortByDepth(s: seq<FlashMount>) returns (r: seq<FlashMount>)
    ensures multiset(r) == multiset(s) && DeepestFirst(r)
  {
    r := [];
    for i := 0 to |s|
      invariant multiset(r) == multiset(s[..i]) && DeepestFirst(r)
    {
      r := Insert(r, s[i]);
      assert s[..i + 1] == s[..i] + [s[i]];
    }
    assert s[..|s|] == s;
  }

  lemma {:induction false} ClosurePrefix(ms: seq<FlashMount>, all: seq<FlashMount>, devices: set<nat>, i: nat)
    requires i <= |ms|
    ensures Closure(ms[..i], all, devices) <= Closure(ms, all, devices)
  {
    if i < |ms| {
      ClosurePrefix(ms[..|ms| - 1], all, devices, i);
      assert ms[..|ms| - 1][..i] == ms[..i];
    } else {
      assert ms[..i] == ms;
    }
  }

  /** `selected` is the acceptable closure of the first `i` mounts, and `paths` its targets. */
  ghost predicate SelectedUpTo(all: seq<FlashMount>, devices: set<nat>, i: nat, selected: seq<FlashMount>,
                               paths: set<string>)
    requires i <= |all|
  {
    selected == Closure(all[..i], all, devices) && Acceptable(selected) && paths == Targets(selected)
  }

  lemma {:induction false} ClosureNext(all: seq<FlashMount>, devices: set<nat>, i: nat)
    requires i < |all|
    ensures Closure(all[..i + 1], all, devices) ==
      Closure(all[..i], all, devices) + if Rooted(all, devices, all[i]) then [all[i]] else []
  {
    assert all[..i + 1][..i] == all[..i];
  }

  lemma {:induction false} SelectNext(all: seq<FlashMount>, devices: set<nat>, i: nat, selected: seq<FlashMount>,
                                      paths: set<string>)
    requires i < |all| && SelectedUpTo(all, devices, i, selected, paths) && Rooted(all, devices, all[i])
    requires all[i].target != "/" && all[i].propagation != 0 && all[i].target !in paths
    ensures SelectedUpTo(all, devices, i + 1, selected + [all[i]], paths + {all[i].target})
  {
    ClosureNext(all, devices, i);
    TargetsNext(selected, all[i]);
    forall k | 0 <= k < |selected| ensures selected[k].target != all[i].target {
      assert selected[k].target in Targets(selected);
    }
  }

  lemma {:induction false} SelectNothing(all: seq<FlashMount>, devices: set<nat>, i: nat, selected: seq<FlashMount>,
                                         paths: set<string>)
    requires i < |all| && SelectedUpTo(all, devices, i, selected, paths) && !Rooted(all, devices, all[i])
    ensures SelectedUpTo(all, devices, i + 1, selected, paths)
  {
    ClosureNext(all, devices, i);
    assert selected + [] == selected;
  }

  lemma {:induction false} SelectRefused(all: seq<FlashMount>, devices: set<nat>, i: nat, selected: seq<FlashMount>,
                                         paths: set<string>)
    requires i < |all| && SelectedUpTo(all, devices, i, selected, paths) && Rooted(all, devices, all[i])
    requires all[i].target == "/" || all[i].propagation == 0 || all[i].target in paths
    ensures !Releasable(all, devices)
  {
    ClosureNext(all, devices, i);
    ClosurePrefix(all, all, devices, i + 1);
    NotAcceptable(Closure(all, all, devices), selected, all[i]);
  }

  method PlanFlashMounts(all: seq<FlashMount>, devices: set<nat>)
    returns (ok: bool, selected: seq<FlashMount>, error: string)
    ensures ok <==> Releasable(all, devices)
    ensures ok ==> IsPlan(all, devices, selected)
  {
    ok, selected, error := false, [], "";
    var paths: set<string> := {};
    for i := 0 to |all|
      invariant SelectedUpTo(all, devices, i, selected, paths)
    {
      var m := all[i];
      if Rooted(all, devices, m) {
        if m.target == "/" || m.propagation == 0 || m.target in paths {
          error := "Cannot safely release stacked/root/shared-slave mount " + m.target;
          SelectRefused(all, devices, i, selected, paths);
          return;
        }
        SelectNext(all, devices, i, selected, paths);
        paths := paths + {m.target};
        selected := selected + [m];
      } else {
        SelectNothing(all, devices, i, selected, paths);
      }
    }
    assert all[..|all|] == all;
    selected := SortByDepth(selected);
    ok := true;
  }

  lemma {:induction false} TargetsNext(s: seq<FlashMount>, m: FlashMount)
    ensures Targets(s + [m]) == Targets(s) + {m.target}
  {
    var s' := s + [m];
    assert s'[|s|] == m;
    forall p | p in Targets(s) ensures p in Targets(s') {
      var i :| 0 <= i < |s| && s[i].target == p;
      assert s'[i].target == p;
    }
  }

  lemma {:induction false} NotAcceptable(s: seq<FlashMount>, init: seq<FlashMount>, m: FlashMount)
    requires init + [m] <= s
    requires m.target == "/" || m.propagation == 0 || m.target in Targets(init)
    ensures !Acceptable(s)
  {
    assert s[|init|] == m;
    if m.target in Targets(init) {
      var k :| 0 <= k < |init| && init[k].target == m.target;
      assert s[k] == init[k];
    }
  }

  // ----- releasing and restoring -----

  function Targets(s: seq<FlashMount>): set<string> {
    set i | 0 <= i < |s| :: s[i].target
  }

  /** The mounts of `table` whose target is not in `gone`. */
  function Without(table: seq<FlashMount>, gone: set<string>): seq<FlashMount> {
    if |table| == 0 then [] else
      Without(table[..|table| - 1], gone) + if table[|table| - 1].target in gone then [] else [table[|table| - 1]]
  }

  /** The table after the first `k` mounts of `order` are unmounted. */
  function Down(all: seq<FlashMount>, order: seq<FlashMount>, k: nat): seq<FlashMount>
    requires k <= |order|
  {
    Without(all, Targets(order[..k]))
  }

  /** The mounts the restore loop has put back once it has passed index `j`, going down. */
  function PutBack(plan: seq<FlashMount>, gone: set<string>, j: nat): seq<FlashMount>
    requires j <= |plan|
    decreases |plan| - j
  {
    if j == |plan| then [] else
      PutBack(plan, gone, j + 1) + if plan[j].target in gone then [plan[j]] else []
  }

  lemma {:induction false} WithoutCount(table: seq<FlashMount>, gone: set<string>, m: FlashMount)
    ensures multiset(Without(table, gone))[m] == if m.target in gone then 0 else multiset(table)[m]
  {
    if |table| > 0 {
      assert table == table[..|table| - 1] + [table[|table| - 1]];
      WithoutCount(table[..|table| - 1], gone, m);
    }
  }

  lemma {:induction false} PutBackCount(plan: seq<FlashMount>, gone: set<string>, j: nat, m: FlashMount)
    requires j <= |plan|
    ensures multiset(PutBack(plan, gone, j))[m] == if m.target in gone then multiset(plan[j..])[m] else 0
    decreases |plan| - j
  {
    if j < |plan| {
      assert plan[j..] == [plan[j]] + plan[j + 1..];
      PutBackCount(plan, gone, j + 1, m);
    }
  }

  lemma {:induction false} InDown(all: seq<FlashMount>, order: seq<FlashMount>, k: nat, m: FlashMount)
    requires k <= |order|
    ensures m in Down(all, order, k) <==> m in all && m.target !in Targets(order[..k])
  {
    WithoutCount(all, Targets(order[..k]), m);
    InMultiset(Down(all, order, k), m);
    InMultiset(all, m);
  }

  lemma {:induction false} InPutBack(plan: seq<FlashMount>, gone: set<string>, j: nat, m: FlashMount)
    requires j <= |plan|
    ensures m in PutBack(plan, gone, j) <==> m.target in gone && m in plan[j..]
  {
    PutBackCount(plan, gone, j, m);
    InMultiset(PutBack(plan, gone, j), m);
    InMultiset(plan[j..], m);
  }

  /** From any prefix of the unmounts, the restore loop brings back the same mounts. */
  lemma {:induction false} RoundTrip(all: seq<FlashMount>, devices: set<nat>, plan: seq<FlashMount>,
                                     order: seq<FlashMount>, k: nat)
    requires IsPlan(all, devices, plan) && IsPlan(all, devices, order) && k <= |order|
    ensures multiset(Down(all, order, k) + PutBack(plan, Targets(order[..k]), 0)) == multiset(all)
  {
    var gone := Targets(order[..k]);
    forall m: FlashMount
      ensures multiset(Down(all, order, k) + PutBack(plan, gone, 0))[m] == multiset(all)[m]
    {
      WithoutCount(all, gone, m);
      PutBackCount(plan, gone, 0, m);
      assert plan[0..] == plan;
      ClosureCount(all, all, devices, m);
      if m.target in gone && m in all {
        var i :| 0 <= i < k && order[i].target == m.target;
        PlanIsClosure(all, devices, order, order[i]);
        PlannedTargetIsUnique(all, devices, order[i], m);
      } else {
        InMultiset(all, m);
      }
    }
  }

  /** The position of a planned mount in an unmount order. */
  lemma {:induction false} PlannedPosition(all: seq<FlashMount>, devices: set<nat>, order: seq<FlashMount>,
                                           m: FlashMount) returns (i: nat)
    requires IsPlan(all, devices, order) && m in all && Rooted(all, devices, m)
    ensures i < |order| && order[i] == m
  {
    PlanIsClosure(all, devices, order, m);
    i :| 0 <= i < |order| && order[i] == m;
  }

  lemma {:induction false} BelowRootedIsRooted(all: seq<FlashMount>, devices: set<nat>, m: FlashMount, a: FlashMount)
    requires Rooted(all, devices, a) && BelowMount(m.target, a.target)
    ensures Rooted(all, devices, m)
  {
    var i :| 0 <= i < |all| && all[i].device in devices && BelowMount(a.target, all[i].target);
    BelowIsPartialOrder(m.target, a.target, all[i].target);
  }

  lemma {:induction false} StillThere(order: seq<FlashMount>, k: nat, i: nat)
    requires k <= |order| && i < |order| && order[i].target !in Targets(order[..k])
    ensures k <= i
  {
  }

  /** When a mount's turn comes, nothing else is mounted on it or below it. */
  lemma {:induction false} UnmountNeverBusy(all: seq<FlashMount>, devices: set<nat>, order: seq<FlashMount>, k: nat,
                                            m: FlashMount)
    requires IsPlan(all, devices, order) && k < |order|
    requires m in Down(all, order, k) && BelowMount(m.target, order[k].target)
    ensures m == order[k]
  {
    InDown(all, order, k, m);
    PlanIsClosure(all, devices, order, order[k]);
    BelowRootedIsRooted(all, devices, m, order[k]);
    var i := PlannedPosition(all, devices, order, m);
    StillThere(order, k, i);
    if i != k {
      DescendantsFirst(all, devices, order, i, k);
    }
  }

  /** While unmounting, a planned mount that is still there has its planned ancestors. */
  lemma {:induction false} DownKeepsAncestors(all: seq<FlashMount>, devices: set<nat>, order: seq<FlashMount>, k: nat,
                                              m: FlashMount, a: FlashMount)
    requires IsPlan(all, devices, order) && k <= |order|
    requires a in order && m in Down(all, order, k) && BelowMount(m.target, a.target)
    ensures a in Down(all, order, k)
  {
    InDown(all, order, k, m);
    InDown(all, order, k, a);
    PlanIsClosure(all, devices, order, a);
    if a.target in Targets(order[..k]) {
      var i :| 0 <= i < k && order[i].target == a.target;
      PlanIsClosure(all, devices, order, order[i]);
      PlannedTargetIsUnique(all, devices, a, order[i]);
      BelowRootedIsRooted(all, devices, m, a);
      var j := PlannedPosition(all, devices, order, m);
      StillThere(order, k, j);
    }
  }

  /** The same while restoring: parents come back before their children. */
  lemma {:induction false} UpKeepsAncestors(all: seq<FlashMount>, devices: set<nat>, plan: seq<FlashMount>,
                                            order: seq<FlashMount>, k: nat, j: nat, m: FlashMount, a: FlashMount)
    requires IsPlan(all, devices, plan) && IsPlan(all, devices, order) && k <= |order| && j <= |plan|
    requires a in plan && BelowMount(m.target, a.target)
    requires m in Down(all, order, k) + PutBack(plan, Targets(order[..k]), j)
    ensures a in Down(all, order, k) + PutBack(plan, Targets(order[..k]), j)
  {
    var gone := Targets(order[..k]);
    PlanIsClosure(all, devices, plan, a);
    PlanIsClosure(all, devices, order, a);
    InDown(all, order, k, a);
    InPutBack(plan, gone, j, a);
    InPutBack(plan, gone, j, m);
    if m in Down(all, order, k) {
      DownKeepsAncestors(all, devices, order, k, m, a);
    } else if a.target in gone {
      var i :| j <= i < |plan| && plan[i] == m;
      var l :| 0 <= l < |plan| && plan[l] == a;
      if i != l {
        DescendantsFirst(all, devices, plan, i, l);
      }
      assert plan[j..][l - j] == a;
    }
  }

  // ----- the mount table in place -----

  lemma {:induction false} WithoutTwice(table: seq<FlashMount>, a: set<string>, b: set<string>)
    ensures Without(Without(table, a), b) == Without(table, a + b)
  {
    if |table| > 0 {
      var init, last := table[..|table| - 1], table[|table| - 1];
      WithoutTwice(init, a, b);
      var w := Without(init, a);
      assert Without(table, a) == if last.target in a then w else w + [last];
      assert (w + [last])[..|w|] == w;
    }
  }

  /** Taking out the only mount on a target. */
  lemma {:induction false} RemoveOnly(table: seq<FlashMount>, i: nat)
    requires i < |table| && forall k :: 0 <= k < |table| && k != i ==> table[k].target != table[i].target
    ensures table[..i] + table[i + 1..] == Without(table, {table[i].target})
  {
    var init, last := table[..|table| - 1], table[|table| - 1];
    if i == |table| - 1 {
      NothingToRemove(init, {last.target});
      assert table[..i] + table[i + 1..] == init;
    } else {
      RemoveOnly(init, i);
      assert table[..i] + table[i + 1..] == init[..i] + init[i + 1..] + [last];
    }
  }

  lemma {:induction false} NothingToRemove(table: seq<FlashMount>, gone: set<string>)
    requires forall i :: 0 <= i < |table| ==> table[i].target !in gone
    ensures Without(table, gone) == table
  {
    if |table| > 0 {
      NothingToRemove(table[..|table| - 1], gone);
      assert table == table[..|table| - 1] + [table[|table| - 1]];
    }
  }

  lemma {:induction false} DownNext(all: seq<FlashMount>, order: seq<FlashMount>, k: nat)
    requires k < |order|
    ensures Down(all, order, k + 1) == Without(Down(all, order, k), {order[k].target})
    ensures Targets(order[..k + 1]) == Targets(order[..k]) + {order[k].target}
  {
    assert order[..k + 1] == order[..k] + [order[k]];
    TargetsNext(order[..k], order[k]);
    WithoutTwice(all, Targets(order[..k]), {order[k].target});
  }

  datatype UmountResult = Unmounted | NotMounted | Busy

  predicate SameMount(a: FlashMount, b: FlashMount) {
    a.device == b.device && a.root == b.root && a.fstype == b.fstype && a.flags == b.flags
  }

  /** Nothing is mounted on the target, or exactly one mount and it is the saved one. */
  predicate CanPutBack(table: seq<FlashMount>, saved: FlashMount) {
    && (forall i, j :: 0 <= i < j < |table| ==> table[i].target != saved.target || table[j].target != saved.target)
    && forall i :: 0 <= i < |table| && table[i].target == saved.target ==> SameMount(table[i], saved)
  }

  class MountNamespace {
    var table: seq<FlashMount>

    constructor (table: seq<FlashMount>)
      ensures this.table == table
    {
      this.table := table;
    }

    /** Takes off the topmost mount on `target`, unless something else stands on it. */
    method Umount(target: string) returns (result: UmountResult)
      modifies this
      ensures result != Unmounted ==> table == old(table)
      ensures result == NotMounted <==> target !in Targets(old(table))
      ensures result == Unmounted ==>
        exists i :: 0 <= i < |old(table)| && old(table)[i].target == target &&
          table == old(table)[..i] + old(table)[i + 1..]
    {
      var i := |table|;
      while i > 0 && table[i - 1].target != target
        invariant 0 <= i <= |table| && forall k :: i <= k < |table| ==> table[k].target != target
      {
        i := i - 1;
      }
      if i == 0 {
        return NotMounted;
      }
      var busy: bool := *;
      if busy || exists k :: 0 <= k < |table| && table[k].target != target && BelowMount(table[k].target, target) {
        return Busy;
      }
      table := table[..i - 1] + table[i..];
      result := Unmounted;
    }

    /** Plans on the current table and unmounts deepest first; stops at the first refusal. */
    method UnmountPlanned(devices: set<nat>)
      returns (ok: bool, plan: seq<FlashMount>, gone: set<string>, ghost order: seq<FlashMount>, ghost k: nat)
      modifies this
      ensures k <= |order| && gone == Targets(order[..k]) && table == Down(old(table), order, k)
      ensures Releasable(old(table), devices) ==>
        IsPlan(old(table), devices, plan) && IsPlan(old(table), devices, order)
      ensures !Releasable(old(table), devices) ==> !ok && plan == [] && order == []
      ensures ok ==> k == |order|
    {
      ghost var all := table;
      gone, order, k := {}, [], 0;
      NothingToRemove(all, {});
      var planned, selected, _ := PlanFlashMounts(table, devices);
      if !planned {
        return false, [], gone, order, k;
      }
      plan := selected;
      var mounts := SortByDepth(plan);
      order := mounts;
      assert order[..0] == [];
      var restorable: bool := *;
      if !restorable {
        ok := false;
        return;
      }
      for i := 0 to |mounts|
        invariant order == mounts && k == i && gone == Targets(order[..k])
        invariant table == Down(all, order, k)
      {
        ghost var before := table;
        var result := Umount(mounts[i].target);
        if result == Busy {
          ok := false;
          return;
        }
        ReleasedOne(all, devices, order, k, before, table, result);
        DownNext(all, order, k);
        gone, k := gone + {mounts[i].target}, k + 1;
      }
      ok := true;
    }

    /** Releases what stands on `devices`; even a partial release can be restored. */
    method Quiesce(devices: set<nat>) returns (ok: bool, plan: seq<FlashMount>, gone: set<string>)
      modifies this
      ensures Restorable(old(table), table, plan, gone)
      ensures ok ==> forall i :: 0 <= i < |table| ==> !Rooted(old(table), devices, table[i])
    {
      ghost var order, k;
      ok, plan, gone, order, k := UnmountPlanned(devices);
      RestoreReady(old(table), devices, plan, order, k);
      if ok {
        ReleasedAll(old(table), devices, order);
      }
    }

    method RestoreAll(plan: seq<FlashMount>, gone: set<string>, works: bool, ghost all: seq<FlashMount>)
      returns (ok: bool)
      requires Restorable(all, table, plan, gone)
      modifies this
      ensures works ==> ok
      ensures ok ==> multiset(table) == multiset(all)
    {
      ok := RestoreMounts(plan, gone, works);
    }

    /**
      Reuses an identical mount already there, refuses a conflicting one, otherwise mounts again; `works` when
      mounting cannot fail.
     */
    method RestoreFlashMount(saved: FlashMount, works: bool) returns (ok: bool)
      modifies this
      ensures works ==> (ok <==> CanPutBack(old(table), saved))
      ensures table == old(table) || table == old(table) + [saved]
      ensures ok && saved.target !in Targets(old(table)) ==> table == old(table) + [saved]
      ensures saved.target in Targets(old(table)) ==> table == old(table)
    {
      var existing := 0;
      var matches := true;
      for i := 0 to |table|
        invariant 0 <= existing <= i
        invariant existing > 0 <==> exists k :: 0 <= k < i && table[k].target == saved.target
        invariant existing > 1 <==> exists k, l :: 0 <= k < l < i && table[k].target == table[l].target == saved.target
        invariant matches <==> forall k :: 0 <= k < i && table[k].target == saved.target ==> SameMount(table[k], saved)
      {
        if table[i].target == saved.target {
          existing := existing + 1;
          matches := matches && table[i].device == saved.device && table[i].root == saved.root &&
            table[i].fstype == saved.fstype && table[i].flags == saved.flags;
        }
      }
      var call: bool := *;
      call := call || works;
      if existing > 0 {
        return existing == 1 && matches && call;
      }
      ok := call;
      if ok {
        table := table + [saved];
      }
    }

    /** The restore loop: from the last planned mount to the first, skipping those never removed. */
    method RestoreMounts(plan: seq<FlashMount>, gone: set<string>, works: bool) returns (ok: bool)
      requires DistinctTargets(plan)
      requires forall i :: 0 <= i < |table| ==> table[i].target !in gone
      modifies this
      ensures works ==> ok
      ensures ok ==> table == old(table) + PutBack(plan, gone, 0)
    {
      ok := true;
      var j := |plan|;
      while j > 0
        invariant 0 <= j <= |plan|
        invariant forall i :: 0 <= i < |table| && table[i].target in gone ==> table[i] in plan[j..]
        invariant works ==> ok
        invariant ok ==> table == old(table) + PutBack(plan, gone, j)
      {
        j := j - 1;
        if plan[j].target in gone {
          assert plan[j].target !in Targets(table);
          var one := RestoreFlashMount(plan[j], works);
          if !one { ok := false; }
        }
        assert plan[j..] == [plan[j]] + plan[j + 1..];
      }
    }
  }

  /** A successful or needless unmount of the next planned mount leaves the next table. */
  lemma {:induction false} ReleasedOne(all: seq<FlashMount>, devices: set<nat>, order: seq<FlashMount>, k: nat,
                    before: seq<FlashMount>, after: seq<FlashMount>, result: UmountResult)
    requires IsPlan(all, devices, order) && k < |order| && before == Down(all, order, k)
    requires result == NotMounted ==> order[k].target !in Targets(before) && after == before
    requires result == Unmounted ==>
      exists i :: 0 <= i < |before| && before[i].target == order[k].target && after == before[..i] + before[i + 1..]
    requires result != Busy
    ensures after == Without(before, {order[k].target})
  {
    if result == NotMounted {
      NothingToRemove(before, {order[k].target});
    } else {
      var i :| 0 <= i < |before| && before[i].target == order[k].target && after == before[..i] + before[i + 1..];
      forall j | 0 <= j < |before| && j != i ensures before[j].target != before[i].target {
        NothingStacked(all, devices, order, k, before, if i < j then i else j, if i < j then j else i);
      }
      RemoveOnly(before, i);
    }
  }

  /** A planned target carries one mount only. */
  lemma {:induction false} NothingStacked(all: seq<FlashMount>, devices: set<nat>, order: seq<FlashMount>, k: nat,
                       before: seq<FlashMount>, i: nat, j: nat)
    requires IsPlan(all, devices, order) && k < |order| && before == Down(all, order, k) && i < j < |before|
    ensures before[i].target != order[k].target || before[j].target != order[k].target
  {
    if before[i].target == order[k].target && before[j].target == order[k].target {
      UnmountNeverBusy(all, devices, order, k, before[i]);
      UnmountNeverBusy(all, devices, order, k, before[j]);
      TwiceInMultiset(before, i, j);
      WithoutCount(all, Targets(order[..k]), order[k]);
      PlannedOnce(all, devices, order, k);
    }
  }

  lemma {:induction false} PlannedOnce(all: seq<FlashMount>, devices: set<nat>, order: seq<FlashMount>, k: nat)
    requires IsPlan(all, devices, order) && k < |order|
    ensures multiset(all)[order[k]] == 1
  {
    PlanHasDistinctTargets(all, devices, order);
    OnceInMultiset(order, k);
    PlanIsClosure(all, devices, order, order[k]);
    ClosureCount(all, all, devices, order[k]);
  }

  /** After a complete release nothing stands on a selected device any more. */
  lemma {:induction false} ReleasedAll(all: seq<FlashMount>, devices: set<nat>, order: seq<FlashMount>)
    requires IsPlan(all, devices, order)
    ensures var left := Down(all, order, |order|);
      forall i :: 0 <= i < |left| ==> !Rooted(all, devices, left[i])
  {
    var left := Down(all, order, |order|);
    assert order[..|order|] == order;
    forall i | 0 <= i < |left| ensures !Rooted(all, devices, left[i]) {
      InDown(all, order, |order|, left[i]);
      PlanIsClosure(all, devices, order, left[i]);
      TargetOf(order, left[i]);
    }
  }

  lemma {:induction false} TargetOf(s: seq<FlashMount>, m: FlashMount)
    ensures m in s ==> m.target in Targets(s)
  {
  }

  /** Restoring from here gives back exactly the mounts of `all`. */
  ghost predicate Restorable(all: seq<FlashMount>, table: seq<FlashMount>, plan: seq<FlashMount>, gone: set<string>) {
    && DistinctTargets(plan)
    && (forall i :: 0 <= i < |table| ==> table[i].target !in gone)
    && multiset(table + PutBack(plan, gone, 0)) == multiset(all)
  }

  lemma {:induction false} RestoreReady(all: seq<FlashMount>, devices: set<nat>, plan: seq<FlashMount>,
                                        order: seq<FlashMount>, k: nat)
    requires k <= |order|
    requires Releasable(all, devices) ==> IsPlan(all, devices, plan) && IsPlan(all, devices, order)
    requires !Releasable(all, devices) ==> plan == [] && order == []
    ensures Restorable(all, Down(all, order, k), plan, Targets(order[..k]))
  {
    if Releasable(all, devices) {
      PlanHasDistinctTargets(all, devices, plan);
      RoundTrip(all, devices, plan, order, k);
    } else {
      NothingToRemove(all, Targets(order[..k]));
      assert Down(all, order, k) + PutBack(plan, Targets(order[..k]), 0) == all;
    }
    var table := Down(all, order, k);
    forall i | 0 <= i < |table| ensures table[i].target !in Targets(order[..k]) {
      InDown(all, order, k, table[i]);
    }
  }
}
