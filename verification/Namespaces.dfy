/** The tree of names: what create, mkdir, unlink, rmdir and rename do to it. */
module Namespaces {
  import opened Dirents
  import opened Directories

  datatype Node =
    | Free
    | File(nlink: nat)
    | Dir(nlink: nat, names: map<Name, Target>)

  /** Where an inode's one entry is. */
  datatype Home = Home(parent: nat, name: Name)

  predicate IsDot(name: Name) {
    name == DOT || name == DOTDOT
  }

  /** The names of a directory's child directories. */
  ghost function KidDirs(names: map<Name, Target>): set<Name> {
    set name | name in names && !IsDot(name) && names[name].fileType == FILE_TYPE_DIR
  }

  /** Every directory knows itself and its parent and counts its links: two, and one for every
      child directory. */
  ghost predicate DirNode(ns: seq<Node>, home: map<nat, Home>, d: nat)
    requires d < |ns| && ns[d].Dir?
  {
    var names := ns[d].names;
    && DOT in names && names[DOT].ino == d
    && DOTDOT in names && names[DOTDOT].ino == (if d == 1 then 1 else if d in home then home[d].parent else 0)
    && ns[d].nlink == 2 + |KidDirs(names)|
  }

  /** An entry names a live inode of the recorded kind, and is that inode's only entry. */
  ghost predicate EntryOk(ns: seq<Node>, home: map<nat, Home>, d: nat, name: Name)
    requires d < |ns| && ns[d].Dir? && name in ns[d].names
  {
    var t := ns[d].names[name];
    && 1 < t.ino < |ns|
    && !ns[t.ino].Free?
    && t.fileType == (if ns[t.ino].Dir? then FILE_TYPE_DIR else FILE_TYPE_FILE)
    && t.ino in home && home[t.ino] == Home(d, name)
  }

  /** An inode other than the root is found where its home says. */
  ghost predicate HomeOk(ns: seq<Node>, home: map<nat, Home>, c: nat)
  {
    && c in home
    && var h := home[c];
    && h.parent < |ns| && ns[h.parent].Dir? && h.name in ns[h.parent].names && !IsDot(h.name)
    && ns[h.parent].names[h.name].ino == c
  }

  /** The tree invariant. */
  ghost predicate NsOk(ns: seq<Node>, home: map<nat, Home>) {
    && |ns| > 1 && ns[0].Free? && ns[1].Dir?
    && (forall d {:trigger DirNode(ns, home, d)} :: 0 <= d < |ns| && ns[d].Dir? ==> DirNode(ns, home, d))
    && (forall f :: 0 <= f < |ns| && ns[f].File? ==> ns[f].nlink == 1)
    && (forall d: nat, name {:trigger EntryOk(ns, home, d, name)} ::
      d < |ns| && ns[d].Dir? && name in ns[d].names && !IsDot(name) ==> EntryOk(ns, home, d, name))
    && (forall c {:trigger HomeOk(ns, home, c)} :: 1 < c < |ns| && !ns[c].Free? ==> HomeOk(ns, home, c))
  }

  /** One name, one inode: no inode has two entries. */
  lemma OneEntryEach(ns: seq<Node>, home: map<nat, Home>, d: nat, name: Name, d': nat, name': Name)
    requires NsOk(ns, home)
    requires d < |ns| && ns[d].Dir? && name in ns[d].names && !IsDot(name)
    requires d' < |ns| && ns[d'].Dir? && name' in ns[d'].names && !IsDot(name')
    requires ns[d].names[name].ino == ns[d'].names[name'].ino
    ensures d == d' && name == name'
  {
    assert EntryOk(ns, home, d, name) && EntryOk(ns, home, d', name');
  }

  lemma KidDirsAdded(names: map<Name, Target>, name: Name, t: Target)
    requires name !in names && !IsDot(name)
    ensures |KidDirs(names[name := t])| == |KidDirs(names)| + if t.fileType == FILE_TYPE_DIR then 1 else 0
  {
    hide Utf8;
    var names' := names[name := t];
    if t.fileType == FILE_TYPE_DIR {
      assert KidDirs(names') == KidDirs(names) + {name};
    } else {
      assert KidDirs(names') == KidDirs(names);
    }
  }

  lemma KidDirsRemoved(names: map<Name, Target>, name: Name)
    requires name in names && !IsDot(name)
    ensures |KidDirs(names - {name})| == |KidDirs(names)| - if names[name].fileType == FILE_TYPE_DIR then 1 else 0
  {
    hide Utf8;
    if names[name].fileType == FILE_TYPE_DIR {
      assert KidDirs(names - {name}) == KidDirs(names) - {name};
    } else {
      assert KidDirs(names - {name}) == KidDirs(names);
    }
  }

  lemma KidDirsDot(names: map<Name, Target>, name: Name, t: Target)
    requires name in names && IsDot(name)
    ensures KidDirs(names[name := t]) == KidDirs(names)
  {
    hide Utf8;
  }

  // ---------------------------------------------------------------- the operations

  /** A new file `c` called `name` in directory `d`. */
  function Created(ns: seq<Node>, d: nat, name: Name, c: nat): seq<Node>
    requires d < |ns| && c < |ns| && ns[d].Dir? && c <= MAX_INO
  {
    ns[c := File(1)][d := ns[d].(names := ns[d].names[name := Target(c, FILE_TYPE_FILE)])]
  }

  const MAX_INO: nat := 0xFFFF_FFFF_FFFF_FFFF

  lemma CreatedOk(ns: seq<Node>, home: map<nat, Home>, d: nat, name: Name, c: nat)
    requires NsOk(ns, home) && |ns| <= MAX_INO
    requires d < |ns| && ns[d].Dir? && 0 < c < |ns| && ns[c].Free? && name !in ns[d].names && !IsDot(name)
    ensures NsOk(Created(ns, d, name, c), home[c := Home(d, name)])
  {
    hide Utf8, KidDirs, IsDot;
    var ns', home' := Created(ns, d, name, c), home[c := Home(d, name)];
    KidDirsAdded(ns[d].names, name, Target(c, FILE_TYPE_FILE));
    forall x | 0 <= x < |ns'| && ns'[x].Dir?
      ensures DirNode(ns', home', x)
    {
      assert DirNode(ns, home, x);
    }
    forall x: nat, nm | x < |ns'| && ns'[x].Dir? && nm in ns'[x].names && !IsDot(nm)
      ensures EntryOk(ns', home', x, nm)
    {
      if x != d || nm != name {
        assert EntryOk(ns, home, x, nm);
      }
    }
    forall x | 1 < x < |ns'| && !ns'[x].Free?
      ensures HomeOk(ns', home', x)
    {
      if x != c {
        assert HomeOk(ns, home, x);
      }
    }
  }

  /** Node `d` with its names replaced. */
  function WithNames(ns: seq<Node>, d: nat, names: map<Name, Target>): seq<Node>
    requires d < |ns| && ns[d].Dir?
  {
    ns[d := ns[d].(names := names)]
  }

  function WithLinks(ns: seq<Node>, d: nat, nlink: nat): seq<Node>
    requires d < |ns| && ns[d].Dir?
  {
    ns[d := ns[d].(nlink := nlink)]
  }

  function NewDir(c: nat, d: nat): Node
    requires c <= MAX_INO && d <= MAX_INO
  {
    Dir(2, map[DOT := Target(c, FILE_TYPE_DIR), DOTDOT := Target(d, FILE_TYPE_DIR)])
  }

  /** A new directory `c` called `name` in directory `d`. */
  function MadeDir(ns: seq<Node>, d: nat, name: Name, c: nat): seq<Node>
    requires d < |ns| && c < |ns| && ns[d].Dir? && c != d && c <= MAX_INO && d <= MAX_INO
  {
    var named := WithNames(ns[c := NewDir(c, d)], d, ns[d].names[name := Target(c, FILE_TYPE_DIR)]);
    WithLinks(named, d, ns[d].nlink + 1)
  }

  lemma MadeDirOk(ns: seq<Node>, home: map<nat, Home>, d: nat, name: Name, c: nat)
    requires NsOk(ns, home) && |ns| <= MAX_INO
    requires d < |ns| && ns[d].Dir? && 0 < c < |ns| && ns[c].Free? && name !in ns[d].names && !IsDot(name)
    ensures NsOk(MadeDir(ns, d, name, c), home[c := Home(d, name)])
  {
    hide Utf8, KidDirs, DirNode, EntryOk, HomeOk, IsDot;
    var ns', home' := MadeDir(ns, d, name, c), home[c := Home(d, name)];
    forall x | 0 <= x < |ns'| && ns'[x].Dir?
      ensures DirNode(ns', home', x)
    {
      MadeDirNode(ns, home, d, name, c, x);
    }
    forall x: nat, nm | x < |ns'| && ns'[x].Dir? && nm in ns'[x].names && !IsDot(nm)
      ensures EntryOk(ns', home', x, nm)
    {
      MadeDirEntry(ns, home, d, name, c, x, nm);
    }
    forall x | 1 < x < |ns'| && !ns'[x].Free?
      ensures HomeOk(ns', home', x)
    {
      MadeDirHome(ns, home, d, name, c, x);
    }
  }

  lemma MadeDirEntry(ns: seq<Node>, home: map<nat, Home>, d: nat, name: Name, c: nat, x: nat, nm: Name)
    requires NsOk(ns, home) && |ns| <= MAX_INO
    requires d < |ns| && ns[d].Dir? && 0 < c < |ns| && ns[c].Free? && name !in ns[d].names && !IsDot(name)
    requires var ns' := MadeDir(ns, d, name, c); x < |ns'| && ns'[x].Dir? && nm in ns'[x].names && !IsDot(nm)
    ensures EntryOk(MadeDir(ns, d, name, c), home[c := Home(d, name)], x, nm)
  {
    hide Utf8, KidDirs, DirNode, HomeOk;
    if x != d || nm != name {
      assert EntryOk(ns, home, x, nm);
    }
  }

  lemma MadeDirHome(ns: seq<Node>, home: map<nat, Home>, d: nat, name: Name, c: nat, x: nat)
    requires NsOk(ns, home) && |ns| <= MAX_INO
    requires d < |ns| && ns[d].Dir? && 0 < c < |ns| && ns[c].Free? && name !in ns[d].names && !IsDot(name)
    requires 1 < x < |ns| && !MadeDir(ns, d, name, c)[x].Free?
    ensures HomeOk(MadeDir(ns, d, name, c), home[c := Home(d, name)], x)
  {
    hide Utf8, KidDirs, DirNode, EntryOk;
    if x != c {
      assert HomeOk(ns, home, x);
    }
  }

  lemma MadeDirNode(ns: seq<Node>, home: map<nat, Home>, d: nat, name: Name, c: nat, x: nat)
    requires NsOk(ns, home) && |ns| <= MAX_INO
    requires d < |ns| && ns[d].Dir? && 0 < c < |ns| && ns[c].Free? && name !in ns[d].names && !IsDot(name)
    requires x < |ns| && MadeDir(ns, d, name, c)[x].Dir?
    ensures DirNode(MadeDir(ns, d, name, c), home[c := Home(d, name)], x)
  {
    hide Utf8, KidDirs;
    KidDirsAdded(ns[d].names, name, Target(c, FILE_TYPE_DIR));
    NoKids(MadeDir(ns, d, name, c)[c].names);
    assert x != c ==> DirNode(ns, home, x);
  }

  lemma NoKids(names: map<Name, Target>)
    requires forall name :: name in names ==> IsDot(name)
    ensures KidDirs(names) == {}
  {
    hide Utf8;
  }

  /** The entry `name` of `d` and the inode behind it are gone. */
  function Unlinked(ns: seq<Node>, d: nat, name: Name): seq<Node>
    requires d < |ns| && ns[d].Dir? && name in ns[d].names && ns[d].names[name].ino < |ns|
  {
    WithNames(ns, d, ns[d].names - {name})[ns[d].names[name].ino := Free]
  }

  lemma UnlinkedOk(ns: seq<Node>, home: map<nat, Home>, d: nat, name: Name)
    requires NsOk(ns, home)
    requires d < |ns| && ns[d].Dir? && name in ns[d].names && !IsDot(name)
    requires ns[d].names[name].ino < |ns| && ns[ns[d].names[name].ino].File?
    ensures NsOk(Unlinked(ns, d, name), home - {ns[d].names[name].ino as nat})
  {
    hide Utf8, KidDirs, IsDot;
    var c := ns[d].names[name].ino;
    var ns', home' := Unlinked(ns, d, name), home - {c as nat};
    KidDirsRemoved(ns[d].names, name);
    assert EntryOk(ns, home, d, name);
    forall x | 0 <= x < |ns'| && ns'[x].Dir?
      ensures DirNode(ns', home', x)
    {
      DotsStay();
      assert DirNode(ns, home, x);
    }
    forall x: nat, nm | x < |ns'| && ns'[x].Dir? && nm in ns'[x].names && !IsDot(nm)
      ensures EntryOk(ns', home', x, nm)
    {
      assert EntryOk(ns, home, x, nm);
    }
    forall x | 1 < x < |ns'| && !ns'[x].Free?
      ensures HomeOk(ns', home', x)
    {
      assert HomeOk(ns, home, x);
    }
  }

  lemma DotsStay()
    ensures IsDot(DOT) && IsDot(DOTDOT)
  {
  }

  /** A directory without entries of its own. */
  predicate Empty(names: map<Name, Target>) {
    forall name :: name in names ==> IsDot(name)
  }

  /** The child directory `name` of `d` is gone, and `d` has one link less. */
  function RemovedChild(ns: seq<Node>, d: nat, name: Name): seq<Node>
    requires d < |ns| && ns[d].Dir? && name in ns[d].names && ns[d].names[name].ino < |ns| && ns[d].names[name].ino != d
    requires ns[d].nlink > 0
  {
    WithLinks(Unlinked(ns, d, name), d, ns[d].nlink - 1)
  }

  lemma RemovedChildOk(ns: seq<Node>, home: map<nat, Home>, d: nat, name: Name)
    requires NsOk(ns, home)
    requires d < |ns| && ns[d].Dir? && name in ns[d].names && !IsDot(name)
    requires ns[d].names[name].ino < |ns| && ns[ns[d].names[name].ino].Dir? && Empty(ns[ns[d].names[name].ino].names)
    ensures ns[d].names[name].ino != d && ns[d].nlink > 2
    ensures NsOk(RemovedChild(ns, d, name), home - {ns[d].names[name].ino as nat})
  {
    hide Utf8, KidDirs, IsDot, DirNode, EntryOk, HomeOk;
    var c := ns[d].names[name].ino;
    assert c != d;
    RemovedChildLinks(ns, home, d, name);
    var ns', home' := RemovedChild(ns, d, name), home - {c as nat};
    forall x | 0 <= x < |ns'| && ns'[x].Dir?
      ensures DirNode(ns', home', x)
    {
      RemovedChildNode(ns, home, d, name, x);
    }
    forall x: nat, nm | x < |ns'| && ns'[x].Dir? && nm in ns'[x].names && !IsDot(nm)
      ensures EntryOk(ns', home', x, nm)
    {
      RemovedChildEntry(ns, home, d, name, x, nm);
    }
    forall x | 1 < x < |ns'| && !ns'[x].Free?
      ensures HomeOk(ns', home', x)
    {
      RemovedChildHome(ns, home, d, name, x);
    }
  }

  lemma RemovedChildLinks(ns: seq<Node>, home: map<nat, Home>, d: nat, name: Name)
    requires NsOk(ns, home)
    requires d < |ns| && ns[d].Dir? && name in ns[d].names && !IsDot(name)
    requires ns[d].names[name].ino < |ns| && ns[ns[d].names[name].ino].Dir?
    ensures ns[d].nlink > 2 && 1 < ns[d].names[name].ino
  {
    hide Utf8, KidDirs, IsDot;
    KidDirsRemoved(ns[d].names, name);
    assert EntryOk(ns, home, d, name) && DirNode(ns, home, d);
  }

  lemma RemovedChildEntry(ns: seq<Node>, home: map<nat, Home>, d: nat, name: Name, x: nat, nm: Name)
    requires NsOk(ns, home)
    requires d < |ns| && ns[d].Dir? && name in ns[d].names && !IsDot(name)
    requires ns[d].names[name].ino < |ns| && ns[d].names[name].ino != d && ns[d].nlink > 0
    requires var ns' := RemovedChild(ns, d, name); x < |ns'| && ns'[x].Dir? && nm in ns'[x].names && !IsDot(nm)
    ensures EntryOk(RemovedChild(ns, d, name), home - {ns[d].names[name].ino as nat}, x, nm)
  {
    hide Utf8, KidDirs, IsDot, DirNode, HomeOk;
    assert EntryOk(ns, home, d, name);
    assert EntryOk(ns, home, x, nm);
  }

  lemma RemovedChildHome(ns: seq<Node>, home: map<nat, Home>, d: nat, name: Name, x: nat)
    requires NsOk(ns, home)
    requires d < |ns| && ns[d].Dir? && name in ns[d].names && !IsDot(name)
    requires ns[d].names[name].ino < |ns| && ns[d].names[name].ino != d && ns[d].nlink > 0
    requires ns[ns[d].names[name].ino].Dir? && Empty(ns[ns[d].names[name].ino].names)
    requires 1 < x < |ns| && !RemovedChild(ns, d, name)[x].Free?
    ensures HomeOk(RemovedChild(ns, d, name), home - {ns[d].names[name].ino as nat}, x)
  {
    hide Utf8, KidDirs, IsDot, DirNode, EntryOk;
    assert HomeOk(ns, home, x);
  }

  lemma RemovedChildNode(ns: seq<Node>, home: map<nat, Home>, d: nat, name: Name, x: nat)
    requires NsOk(ns, home)
    requires d < |ns| && ns[d].Dir? && name in ns[d].names && !IsDot(name)
    requires ns[d].names[name].ino < |ns| && ns[ns[d].names[name].ino].Dir? && ns[d].names[name].ino != d
    requires ns[d].nlink > 0
    requires x < |ns| && RemovedChild(ns, d, name)[x].Dir?
    ensures DirNode(RemovedChild(ns, d, name), home - {ns[d].names[name].ino as nat}, x)
  {
    hide Utf8, KidDirs, IsDot;
    DotsStay();
    KidDirsRemoved(ns[d].names, name);
    assert EntryOk(ns, home, d, name);
    assert DirNode(ns, home, x);
  }

  /** The names of directory `x` once entry `name` of `d`, standing for `t`, has become entry
      `name'` of `d'`. */
  function MovedNames(names: map<Name, Target>, t: Target, d: nat, name: Name, d': nat, name': Name,
      x: nat): map<Name, Target> {
    var added := if x == d' then names[name' := t] else names;
    if x == d then added - {name} else added
  }

  /** Node `x` after the move; a directory that changes hands takes its link and its `..` along. */
  function MovedNode(n: Node, t: Target, d: nat, name: Name, d': nat, name': Name, x: nat, turned: bool): Node
    requires n.Dir? && d' <= MAX_INO
  {
    var names := MovedNames(n.names, t, d, name, d', name', x);
    var up := if turned && x == t.ino && DOTDOT in names then names[DOTDOT := Target(d', names[DOTDOT].fileType)]
        else names;
    var nlink := if !turned then n.nlink
                 else if x == d then (if n.nlink == 0 then 0 else n.nlink - 1)
                 else if x == d' then n.nlink + 1
                 else n.nlink;
    Dir(nlink, up)
  }

  /** Entry `name` of `d` becomes entry `name'` of `d'`. */
  function Moved(ns: seq<Node>, d: nat, name: Name, d': nat, name': Name): (ns': seq<Node>)
    requires d < |ns| && d' < |ns| && ns[d].Dir? && name in ns[d].names && d' <= MAX_INO
    ensures |ns'| == |ns|
  {
    var t := ns[d].names[name];
    var turned := d != d' && t.ino < |ns| && ns[t.ino].Dir?;
    seq(|ns|, x requires 0 <= x < |ns| => if ns[x].Dir? then MovedNode(ns[x], t, d, name, d', name', x, turned)
        else ns[x])
  }

  /** Moving an entry to a free name keeps the tree invariant; the moved inode's home is its new
      place. */
  lemma MovedOk(ns: seq<Node>, home: map<nat, Home>, d: nat, name: Name, d': nat, name': Name)
    requires NsOk(ns, home) && |ns| <= MAX_INO
    requires d < |ns| && d' < |ns| && ns[d].Dir? && ns[d'].Dir?
    requires name in ns[d].names && !IsDot(name) && name' !in ns[d'].names && !IsDot(name')
    ensures NsOk(Moved(ns, d, name, d', name'), home[ns[d].names[name].ino as nat := Home(d', name')])
  {
    hide Utf8, KidDirs, IsDot, DirNode, EntryOk, HomeOk;
    var ns', home' := Moved(ns, d, name, d', name'), home[ns[d].names[name].ino as nat := Home(d', name')];
    forall x | 0 <= x < |ns'| && ns'[x].Dir?
      ensures DirNode(ns', home', x)
    {
      MovedDirNode(ns, home, d, name, d', name', x);
    }
    forall x: nat, nm | x < |ns'| && ns'[x].Dir? && nm in ns'[x].names && !IsDot(nm)
      ensures EntryOk(ns', home', x, nm)
    {
      MovedEntry(ns, home, d, name, d', name', x, nm);
    }
    forall x | 1 < x < |ns'| && !ns'[x].Free?
      ensures HomeOk(ns', home', x)
    {
      MovedHome(ns, home, d, name, d', name', x);
    }
  }

  lemma MovedEntry(ns: seq<Node>, home: map<nat, Home>, d: nat, name: Name, d': nat, name': Name, x: nat, nm: Name)
    requires NsOk(ns, home) && |ns| <= MAX_INO
    requires d < |ns| && d' < |ns| && ns[d].Dir? && ns[d'].Dir?
    requires name in ns[d].names && !IsDot(name) && name' !in ns[d'].names && !IsDot(name')
    requires var ns' := Moved(ns, d, name, d', name'); x < |ns'| && ns'[x].Dir? && nm in ns'[x].names && !IsDot(nm)
    ensures EntryOk(Moved(ns, d, name, d', name'), home[ns[d].names[name].ino as nat := Home(d', name')], x, nm)
  {
    hide Utf8, KidDirs, IsDot;
    DotsStay();
    assert EntryOk(ns, home, d, name);
    if x != d' || nm != name' {
      assert EntryOk(ns, home, x, nm);
    }
  }

  lemma MovedHome(ns: seq<Node>, home: map<nat, Home>, d: nat, name: Name, d': nat, name': Name, x: nat)
    requires NsOk(ns, home) && |ns| <= MAX_INO
    requires d < |ns| && d' < |ns| && ns[d].Dir? && ns[d'].Dir?
    requires name in ns[d].names && !IsDot(name) && name' !in ns[d'].names && !IsDot(name')
    requires 1 < x < |ns| && !ns[x].Free?
    ensures HomeOk(Moved(ns, d, name, d', name'), home[ns[d].names[name].ino as nat := Home(d', name')], x)
  {
    hide Utf8, KidDirs, IsDot;
    DotsStay();
    assert EntryOk(ns, home, d, name);
    assert HomeOk(ns, home, x);
  }

  lemma MovedDirNode(ns: seq<Node>, home: map<nat, Home>, d: nat, name: Name, d': nat, name': Name, x: nat)
    requires NsOk(ns, home) && |ns| <= MAX_INO
    requires d < |ns| && d' < |ns| && ns[d].Dir? && ns[d'].Dir?
    requires name in ns[d].names && !IsDot(name) && name' !in ns[d'].names && !IsDot(name')
    requires x < |ns| && ns[x].Dir?
    ensures DirNode(Moved(ns, d, name, d', name'), home[ns[d].names[name].ino as nat := Home(d', name')], x)
  {
    hide Utf8, KidDirs, IsDot;
    var t := ns[d].names[name];
    DotsStay();
    assert EntryOk(ns, home, d, name);
    assert DirNode(ns, home, x);
    var names := MovedNames(ns[x].names, t, d, name, d', name', x);
    MovedKids(ns[x].names, t, d, name, d', name', x);
    if x == t.ino {
      KidDirsDot(names, DOTDOT, Target(d', names[DOTDOT].fileType));
    }
  }

  /** How a move changes the number of child directories. */
  lemma MovedKids(names: map<Name, Target>, t: Target, d: nat, name: Name, d': nat, name': Name, x: nat)
    requires !IsDot(name) && !IsDot(name')
    requires x == d ==> name in names && names[name] == t
    requires x == d' ==> name' !in names
    ensures |KidDirs(MovedNames(names, t, d, name, d', name', x))| == |KidDirs(names)|
      + (if x == d' && t.fileType == FILE_TYPE_DIR then 1 else 0)
      - (if x == d && t.fileType == FILE_TYPE_DIR then 1 else 0)
  {
    hide Utf8, KidDirs, IsDot;
    var added := if x == d' then names[name' := t] else names;
    if x == d' {
      KidDirsAdded(names, name', t);
    }
    if x == d {
      KidDirsRemoved(added, name);
    }
  }
}
