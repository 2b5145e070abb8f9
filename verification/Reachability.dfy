/** Every inode is found from the root: which operations keep that, and when a rename does. */
module Reachability {
  import opened Dirents
  import opened Namespaces

  /** `path` leads from `x` up to `y`, one parent at a time; nothing is above the root. */
  predicate Climb(home: map<nat, Home>, path: seq<nat>, x: nat, y: nat) {
    && |path| > 0 && path[0] == x && path[|path| - 1] == y
    && forall i :: 0 <= i < |path| - 1 ==> path[i] != 1 && path[i] in home && home[path[i]].parent == path[i + 1]
  }

  /** `x` is `y` or lies somewhere below it. */
  ghost predicate Under(home: map<nat, Home>, x: nat, y: nat) {
    exists path :: Climb(home, path, x, y)
  }

  /** Every live inode lies below the root. */
  ghost predicate Rooted(ns: seq<Node>, home: map<nat, Home>) {
    forall x {:trigger Under(home, x, 1)} :: 0 < x < |ns| && !ns[x].Free? ==> Under(home, x, 1)
  }

  lemma Rise(home: map<nat, Home>, path: seq<nat>, x: nat, y: nat, x': nat)
    requires Climb(home, path, x, y) && x' != 1 && x' in home && home[x'].parent == x
    ensures Climb(home, [x'] + path, x', y)
  {
    var longer := [x'] + path;
    assert forall i :: 0 < i < |longer| ==> longer[i] == path[i - 1];
  }

  /** A climb that avoids the one inode whose home differs is the same climb. */
  lemma SameClimb(home: map<nat, Home>, home': map<nat, Home>, path: seq<nat>, x: nat, y: nat)
    requires Climb(home, path, x, y)
    requires forall i :: 0 <= i < |path| - 1 ==> path[i] in home' && home'[path[i]] == home[path[i]]
    ensures Climb(home', path, x, y)
  {
  }

  /** Climbs start and go through live inodes. */
  lemma {:induction false} LiveClimb(ns: seq<Node>, home: map<nat, Home>, path: seq<nat>, x: nat, y: nat, i: nat)
    requires NsOk(ns, home) && Climb(home, path, x, y) && 0 < x < |ns| && !ns[x].Free? && i < |path|
    ensures 0 < path[i] < |ns| && !ns[path[i]].Free?
    ensures i > 0 ==> ns[path[i]].Dir? && !Empty(ns[path[i]].names)
  {
    hide Utf8, DirNode, EntryOk, IsDot;
    if i > 0 {
      LiveClimb(ns, home, path, x, y, i - 1);
      assert HomeOk(ns, home, path[i - 1]);
    }
  }

  lemma {:induction false} StuckClimb(home: map<nat, Home>, path: seq<nat>, x: nat, y: nat)
    requires Climb(home, path, x, y) && x in home && home[x].parent == x
    ensures x == y
  {
    if |path| > 1 {
      StuckClimb(home, path[1..], x, y);
    }
  }

  /** What lies below the root is not its own parent. */
  lemma NoLoop(home: map<nat, Home>, x: nat)
    requires Under(home, x, 1) && x != 1 && x in home
    ensures home[x].parent != x
  {
    var path :| Climb(home, path, x, 1);
    if home[x].parent == x {
      StuckClimb(home, path, x, 1);
    }
  }

  /** A new inode in a directory that lies below the root does too. */
  lemma RootedGrown(ns: seq<Node>, home: map<nat, Home>, ns': seq<Node>, d: nat, name: Name, c: nat)
    requires NsOk(ns, home) && Rooted(ns, home) && |ns'| == |ns|
    requires 0 < d < |ns| && ns[d].Dir? && 1 < c < |ns| && ns[c].Free?
    requires forall x :: 0 <= x < |ns| && x != c && !ns'[x].Free? ==> !ns[x].Free?
    ensures Rooted(ns', home[c := Home(d, name)])
  {
    hide NsOk, Utf8;
    var home' := home[c := Home(d, name)];
    forall x | 0 < x < |ns| && !ns[x].Free?
      ensures Under(home', x, 1)
    {
      assert Under(home, x, 1);
      var path :| Climb(home, path, x, 1);
      forall i | 0 <= i < |path| - 1
        ensures path[i] in home' && home'[path[i]] == home[path[i]]
      {
        LiveClimb(ns, home, path, x, 1, i);
      }
      SameClimb(home, home', path, x, 1);
    }
    assert Under(home', d, 1);
    var path :| Climb(home', path, d, 1);
    Rise(home', path, d, 1, c);
  }

  /** Removing an inode that nothing lies below keeps the others below the root. */
  lemma RootedCut(ns: seq<Node>, home: map<nat, Home>, ns': seq<Node>, c: nat)
    requires NsOk(ns, home) && Rooted(ns, home) && |ns'| == |ns| && c < |ns|
    requires ns[c].Dir? ==> Empty(ns[c].names)
    requires ns'[c].Free? && forall x :: 0 <= x < |ns| && !ns'[x].Free? ==> !ns[x].Free?
    ensures Rooted(ns', home - {c})
    ensures forall x, y {:trigger Under(home - {c}, x, y)} :: 0 < x < |ns| && !ns'[x].Free? ==>
      (Under(home - {c}, x, y) <==> Under(home, x, y))
  {
    hide NsOk, Utf8, Empty;
    var home' := home - {c};
    forall x, y | 0 < x < |ns| && !ns'[x].Free?
      ensures Under(home', x, y) <==> Under(home, x, y)
    {
      if Under(home, x, y) {
        var path :| Climb(home, path, x, y);
        forall i | 0 <= i < |path| - 1
          ensures path[i] in home' && home'[path[i]] == home[path[i]]
        {
          LiveClimb(ns, home, path, x, y, i);
        }
        SameClimb(home, home', path, x, y);
      }
      if Under(home', x, y) {
        var path :| Climb(home', path, x, y);
        SameClimb(home', home, path, x, y);
      }
    }
  }

  /** The part of a climb to `y` up to the first time it meets `c`. */
  lemma {:induction false} FirstMeeting(home: map<nat, Home>, path: seq<nat>, x: nat, y: nat, c: nat)
      returns (head: seq<nat>)
    requires Climb(home, path, x, y) && c in path
    ensures Climb(home, head, x, c) && c !in head[..|head| - 1]
    decreases |path|
  {
    if path[0] == c {
      head := [c];
    } else {
      var rest := FirstMeeting(home, path[1..], path[1], y, c);
      Rise(home, rest, path[1], c, x);
      head := [x] + rest;
      assert head[..|head| - 1] == [x] + rest[..|rest| - 1];
    }
  }

  lemma Joined(home: map<nat, Home>, p: seq<nat>, x: nat, c: nat, q: seq<nat>, d: nat, y: nat)
    requires Climb(home, p, x, c) && c != 1 && c in home && home[c].parent == d && Climb(home, q, d, y)
    ensures Climb(home, p + q, x, y)
  {
    var all := p + q;
    forall i | 0 <= i < |all| - 1
      ensures all[i] != 1 && all[i] in home && home[all[i]].parent == all[i + 1]
    {
      if i >= |p| {
        assert all[i] == q[i - |p|];
      }
    }
  }

  lemma NotMet(home: map<nat, Home>, path: seq<nat>, x: nat, y: nat, c: nat)
    requires Climb(home, path, x, y) && !Under(home, x, c)
    ensures c !in path
  {
    if c in path {
      var head := FirstMeeting(home, path, x, y, c);
    }
  }

  /** When the new parent does not lie below the moved inode, everything stays below the root. */
  lemma MovedStaysRooted(home: map<nat, Home>, c: nat, d': nat, name': Name, x: nat)
    requires c != 1 && Under(home, x, 1) && Under(home, d', 1) && !Under(home, d', c)
    ensures Under(home[c := Home(d', name')], x, 1)
  {
    hide Utf8;
    var home' := home[c := Home(d', name')];
    var p :| Climb(home, p, x, 1);
    var q :| Climb(home, q, d', 1);
    NotMet(home, q, d', 1, c);
    SameClimb(home, home', q, d', 1);
    if c in p {
      var head := FirstMeeting(home, p, x, 1, c);
      forall i | 0 <= i < |head| - 1
        ensures head[i] != c
      {
        assert head[i] in head[..|head| - 1];
      }
      SameClimb(home, home', head, x, c);
      Joined(home', head, x, c, q, d', 1);
    } else {
      SameClimb(home, home', p, x, 1);
    }
  }

  /** When it does, the moved inode and everything below it is cut off. */
  lemma MovedCutOff(home: map<nat, Home>, c: nat, d': nat, name': Name)
    requires c != 1 && Under(home, d', c)
    ensures !Under(home[c := Home(d', name')], c, 1)
  {
    hide Utf8;
    var home' := home[c := Home(d', name')];
    var q0 :| Climb(home, q0, d', c);
    var q := FirstMeeting(home, q0, d', c, c);
    forall i | 0 <= i < |q| - 1
      ensures q[i] != c
    {
      assert q[i] in q[..|q| - 1];
    }
    forall p | Climb(home', p, c, 1)
      ensures false
    {
      Circling(home', q, p, c, d', |p| - 1);
    }
  }

  lemma {:induction false} Circling(home: map<nat, Home>, q: seq<nat>, p: seq<nat>, c: nat, d': nat, i: nat)
    requires |q| > 0 && q[0] == d' && q[|q| - 1] == c && c in home && home[c].parent == d'
    requires forall j :: 0 <= j < |q| - 1 ==> q[j] in home && home[q[j]].parent == q[j + 1]
    requires Climb(home, p, c, 1) && i < |p|
    ensures p[i] in q
  {
    if i > 0 {
      Circling(home, q, p, c, d', i - 1);
      var j :| 0 <= j < |q| && q[j] == p[i - 1];
      assert p[i] == if j == |q| - 1 then q[0] else q[j + 1];
    }
  }

  /** A move keeps everything below the root exactly when the new parent is not the moved inode
      and does not lie below it. */
  lemma MovedRooted(ns: seq<Node>, home: map<nat, Home>, d: nat, name: Name, d': nat, name': Name)
    requires NsOk(ns, home) && Rooted(ns, home) && |ns| <= MAX_INO
    requires d < |ns| && d' < |ns| && ns[d].Dir? && ns[d'].Dir?
    requires name in ns[d].names && !IsDot(name) && name' !in ns[d'].names && !IsDot(name')
    ensures var c := ns[d].names[name].ino;
            Rooted(Moved(ns, d, name, d', name'), home[c as nat := Home(d', name')]) <==> !Under(home, d', c)
  {
    hide Utf8, DirNode, IsDot;
    var c := ns[d].names[name].ino;
    var ns', home' := Moved(ns, d, name, d', name'), home[c as nat := Home(d', name')];
    assert EntryOk(ns, home, d, name);
    if Under(home, d', c) {
      MovedCutOff(home, c, d', name');
      assert !ns'[c].Free?;
    } else {
      forall x | 0 < x < |ns'| && !ns'[x].Free?
        ensures Under(home', x, 1)
      {
        assert !ns[x].Free?;
        assert Under(home, x, 1) && Under(home, d', 1);
        MovedStaysRooted(home, c, d', name', x);
      }
    }
  }

  /** Where an inode lives is determined by the tree, so what it lies below is, too. */
  lemma OneHome(ns: seq<Node>, home: map<nat, Home>, home': map<nat, Home>, x: nat, y: nat)
    requires NsOk(ns, home) && NsOk(ns, home') && 0 < x < |ns| && !ns[x].Free? && Under(home, x, y)
    ensures Under(home', x, y)
  {
    hide Utf8, DirNode, IsDot;
    var path :| Climb(home, path, x, y);
    forall i | 0 <= i < |path| - 1
      ensures path[i] in home' && home'[path[i]] == home[path[i]]
    {
      LiveClimb(ns, home, path, x, y, i);
      var z := path[i];
      assert HomeOk(ns, home, z) && HomeOk(ns, home', z);
      assert EntryOk(ns, home', home[z].parent, home[z].name);
    }
    SameClimb(home, home', path, x, y);
  }

  lemma RootedAnyHome(ns: seq<Node>, home: map<nat, Home>, home': map<nat, Home>)
    requires NsOk(ns, home) && NsOk(ns, home') && Rooted(ns, home)
    ensures Rooted(ns, home')
  {
    hide Utf8, NsOk;
    forall x | 0 < x < |ns| && !ns[x].Free?
      ensures Under(home', x, 1)
    {
      OneHome(ns, home, home', x, 1);
    }
  }
}
