/** When taking a name out of a directory block does what it should, and when it does not. */
module DirRemoval {
  import opened Bytes
  import opened Layout
  import opened Wrappers
  import opened Dirents
  import opened DirBlocks
  import opened Directories
  import opened DirTree

  /** Where the walk goes on after the record that took record `k` in. */
  function Resume(recs: seq<DirEntry>, k: nat): nat
    requires k < |recs|
  {
    Extent(recs[..LastLive(recs[..k])]) + recs[k].recLen
  }

  /** A walk depends on the bytes from where it starts. */
  lemma {:induction false} WalkFrame(b: Block, b': Block, from: nat)
    requires from <= UB && b[from..] == b'[from..]
    ensures Walk(b', from) == Walk(b, from)
    decreases UB - from
  {
    hide Utf8;
    if from < UB {
      DecodeSame(b, b', from);
      match Decode(b, from) {
        case Ok(e) =>
          assert b[from + e.recLen..] == b[from..][e.recLen..];
          assert b'[from + e.recLen..] == b'[from..][e.recLen..];
          WalkFrame(b, b', from + e.recLen);
        case Err(_) =>
      }
    }
  }

  lemma DecodeSame(b: Block, b': Block, from: nat)
    requires from < UB && b[from..] == b'[from..]
    ensures Decode(b', from) == Decode(b, from)
  {
    hide Utf8, FromLe;
    forall i | from <= i < UB
      ensures b[i] == b'[i]
    {
      assert b[from..][i - from] == b'[from..][i - from];
    }
    if from + 12 <= UB {
      assert b[from..from + 8] == b'[from..from + 8];
      assert b[from + 8..from + 10] == b'[from + 8..from + 10];
      var end := from + 12 + b[from + 10] as int;
      if end <= UB {
        assert b[from + 12..end] == b'[from + 12..end];
      }
    }
  }

  lemma {:induction false} WalkPast(b: Block, from: nat, recs: seq<DirEntry>, to: nat)
    requires Tiles(b, from, recs, to) && to <= UB
    ensures Walk(b, from) == match Walk(b, to) { case Ok(rest) => Ok(recs + rest) case Err(e) => Err(e) }
    decreases |recs|
  {
    hide Utf8, Decode;
    TilesExtent(b, from, recs, to);
    if recs == [] {
      assert Walk(b, to).Ok? ==> [] + Walk(b, to).value == Walk(b, to).value;
    } else {
      WalkPast(b, from + recs[0].recLen, recs[1..], to);
      if Walk(b, to).Ok? {
        assert recs + Walk(b, to).value == [recs[0]] + (recs[1..] + Walk(b, to).value);
      }
    }
  }

  /** After a removal with a live record before the victim, the walk sees the records up to that
      one, which now swallows the victim's length, and then whatever the block held from there
      on before the removal. */
  lemma RemovalResumes(b: Block, b': Block, recs: seq<DirEntry>, k: nat)
    requires k < |recs| && RemovedRec(b, b', recs, k) && LastLive(recs[..k]) > 0
    ensures Resume(recs, k) <= UB
    ensures Walk(b', 0) == match Walk(b, Resume(recs, k)) {
                             case Ok(rest) => Ok(recs[..LastLive(recs[..k]) - 1] + [Merged(recs, k)] + rest)
                             case Err(e) => Err(e)
                           }
  {
    hide Utf8, Decode, Walk, Tiles;
    var n := LastLive(recs[..k]);
    WalkPast(b', 0, recs[..n - 1] + [Merged(recs, k)], Resume(recs, k));
    WalkFrame(b, b', Resume(recs, k));
  }

  /** The records that stay before the victim. */
  function Ahead(recs: seq<DirEntry>, k: nat): seq<DirEntry>
    requires k < |recs|
  {
    recs[..LastLive(recs[..k])]
  }

  /** A removal takes out its name and no other exactly when the block as it was, walked from
      where the walk will resume, shows the names after the victim and no others. */
  lemma RemovalCorrectIff(b: Block, b': Block, recs: seq<DirEntry>, k: nat)
    requires k < |recs| && recs[k].Live() && Tiles(b, 0, recs, UB) && RemovedRec(b, b', recs, k) && Unique(recs)
    requires LastLive(recs[..k]) > 0
    ensures Resume(recs, k) <= UB
    ensures Walk(b', 0).Ok? && Names(RecsOf(b')) == Names(recs) - {recs[k].name} <==>
            var rest := Walk(b, Resume(recs, k));
            rest.Ok? && Names(rest.value) + Names(Ahead(recs, k)) == Names(recs[k + 1..]) + Names(Ahead(recs, k))
  {
    hide Utf8, Decode, Walk, Tiles, Names, Unique;
    RemovalResumes(b, b', recs, k);
    NamesWithout(recs, k);
    var n := LastLive(recs[..k]);
    var rest := Walk(b, Resume(recs, k));
    if rest.Ok? {
      MergedNames(recs, k);
      NamesConcat(recs[..n - 1] + [Merged(recs, k)], rest.value);
    }
  }

  /** The records that should still be there once `name` is gone from block `b` of a directory,
      and those that are: the walk goes on at another place. */
  ghost predicate RightFrom(before: seq<DirEntry>, b: Block, name: Name, after: seq<DirEntry>) {
    var recs := RecsOf(b);
    var k := FindNamed(recs, name);
    && k < |recs|
    && (LastLive(recs[..k]) > 0 ==>
      && Resume(recs, k) <= UB && Walk(b, Resume(recs, k)).Ok?
      && Names(before + Ahead(recs, k) + (Walk(b, Resume(recs, k)).value + after))
         == Names(before + Ahead(recs, k) + (recs[k + 1..] + after)))
  }

  /** Walked from where the walk will resume once `name` is gone, its block shows the right names. */
  ghost predicate PagesRight(pages: seq<Block>, name: Name) {
    var at := HolderOf(pages, name);
    at < |pages| ==> RightFrom(DirRecs(pages[..at]), pages[at], name, DirRecs(pages[at + 1..]))
  }

  /** A removal from a directory takes out its name and no other, and leaves it readable, exactly
      when the block of the name, walked from where the walk will resume, shows the right names. */
  lemma PagesRightIff(pages: seq<Block>, name: Name)
    requires AllTiled(pages) && Unique(DirRecs(pages)) && HolderOf(pages, name) < |pages|
    ensures var pages' := PagesRemoved(pages, name);
            AllTiled(pages') && Names(DirRecs(pages')) == Names(DirRecs(pages)) - {name} <==> PagesRight(pages, name)
  {
    hide Utf8, Walk, Names, Unique, PagesRemoved, DirRecs, FindNamed, RecsOf, TakeAt, Resume, EntryRemoved;
    var at, pages' := HolderOf(pages, name), PagesRemoved(pages, name);
    var recs := RecsOf(pages[at]);
    var k := FindNamed(recs, name);
    PagesRemovedAt(pages, name);
    if LastLive(recs[..k]) == 0 {
      RemovedTiled(pages, name);
      RemovedNames(DirRecs(pages), DirRecs(pages'), name);
    } else {
      DirRecsAt(pages, at);
      DirRecsUpdate(pages, at, pages'[at]);
      RightFromIff(DirRecs(pages[..at]), pages[at], pages'[at], recs, k, DirRecs(pages[at + 1..]));
      assert AllTiled(pages') <==> Walk(pages'[at], 0).Ok?;
    }
  }

  /** The same for the block of the name, with the records of the blocks around it. */
  lemma RightFromIff(x: seq<DirEntry>, b: Block, b': Block, recs: seq<DirEntry>, k: nat, y: seq<DirEntry>)
    requires RecsOf(b) == recs && k < |recs| && k == FindNamed(recs, recs[k].name) && RemovedRec(b, b', recs, k)
    requires LastLive(recs[..k]) > 0 && Unique(x + recs + y)
    ensures Walk(b', 0).Ok? && Names(x + RecsOf(b') + y) == Names(x + recs + y) - {recs[k].name} <==>
      RightFrom(x, b, recs[k].name, y)
  {
    hide Utf8, Decode, Walk, Tiles, Names, Unique, FindNamed, RemovedRec, Resume;
    RemovalResumes(b, b', recs, k);
    NamesWithoutIn(x, recs, k, y);
    var n := LastLive(recs[..k]);
    var rest := Walk(b, Resume(recs, k));
    if rest.Ok? {
      var front := recs[..n - 1] + [Merged(recs, k)];
      RecsOfWalk(b', front + rest.value);
      MergedNames(recs, k);
      NamesConcat(x, front);
      NamesConcat(x, Ahead(recs, k));
      NamesConcat(x + front, rest.value + y);
      NamesConcat(x + Ahead(recs, k), rest.value + y);
      assert x + (front + rest.value) + y == x + front + (rest.value + y);
    }
  }

  lemma RecsOfWalk(b: Block, recs: seq<DirEntry>)
    requires Walk(b, 0) == Ok(recs)
    ensures RecsOf(b) == recs
  {
    hide Utf8, Walk;
  }

  /** The names of a directory without record `k` of one of its blocks. */
  lemma NamesWithoutIn(x: seq<DirEntry>, recs: seq<DirEntry>, k: nat, y: seq<DirEntry>)
    requires k < |recs| && recs[k].Live() && Unique(x + recs + y)
    ensures Names(x + recs + y) - {recs[k].name} == Names(x + Ahead(recs, k) + (recs[k + 1..] + y))
  {
    hide Utf8, Names, Unique, LastLive;
    var n := LastLive(recs[..k]);
    var front, rest := x + recs[..n], recs[k + 1..] + y;
    Split(recs, n, k);
    DeadBetween(recs, k);
    AroundIn(x, recs, k, y);
    SplitIn(x, recs[..n], recs[n..k], recs[k], recs[k + 1..], y);
    NotBefore(x + recs + y, |x| + n, |x| + k);
    NotAfter(x + recs + y, |x| + k);
    assert (x + recs)[..|x| + n] == front;
    assert (x + recs + y)[..|x| + n] == front;
    NamesAround(front, recs[n..k], recs[k], rest);
    NamesConcat(front, rest);
  }

  lemma AroundIn(x: seq<DirEntry>, recs: seq<DirEntry>, k: nat, y: seq<DirEntry>)
    requires k < |recs|
    ensures (x + recs + y)[|x| + k] == recs[k] && (x + recs + y)[|x| + k + 1..] == recs[k + 1..] + y
  {
    hide Utf8;
  }

  lemma SplitIn(x: seq<DirEntry>, p: seq<DirEntry>, dead: seq<DirEntry>, e: DirEntry, q: seq<DirEntry>,
      y: seq<DirEntry>)
    ensures x + (p + (dead + ([e] + q))) + y == x + p + (dead + ([e] + (q + y)))
  {
    hide Utf8;
    assert x + (p + (dead + ([e] + q))) == x + p + (dead + ([e] + q));
    assert (dead + ([e] + q)) + y == dead + ([e] + (q + y));
  }

  /** A removal that folds the record into the one right before it is right. */
  lemma AdjacentRight(pages: seq<Block>, name: Name)
    requires AllTiled(pages) && PagesRemovable(pages, name)
    ensures PagesRight(pages, name)
  {
    hide Utf8, Walk, Names, DirRecs, FindNamed, LastLive;
    var at := HolderOf(pages, name);
    if at < |pages| {
      var recs := RecsOf(pages[at]);
      var k := FindNamed(recs, name);
      RecsWalk(pages[at]);
      if LastLive(recs[..k]) > 0 {
        ResumeAdjacent(pages[at], recs, k);
      }
    }
  }

  lemma ResumeAdjacent(b: Block, recs: seq<DirEntry>, k: nat)
    requires k < |recs| && Walk(b, 0) == Ok(recs) && LastLive(recs[..k]) == k
    ensures Resume(recs, k) <= UB && Walk(b, Resume(recs, k)) == Ok(recs[k + 1..])
  {
    hide Utf8, Decode, LastLive, Walk;
    WalkTiles(b, 0, recs);
    ExtentStep(recs, k);
    assert recs == recs[..k + 1] + recs[k + 1..];
    TilesConcat(b, 0, recs[..k + 1], recs[k + 1..], UB);
    WalkTiles(b, Resume(recs, k), recs[k + 1..]);
  }

  lemma MergedNames(recs: seq<DirEntry>, k: nat)
    requires k < |recs| && LastLive(recs[..k]) > 0
    ensures Names(recs[..LastLive(recs[..k]) - 1] + [Merged(recs, k)]) == Names(Ahead(recs, k))
  {
    hide Utf8, Names;
    var n := LastLive(recs[..k]);
    assert Ahead(recs, k) == recs[..n - 1] + [recs[n - 1]];
    NamesConcat(recs[..n - 1], [Merged(recs, k)]);
    NamesConcat(recs[..n - 1], [recs[n - 1]]);
    NamesOne(Merged(recs, k));
    NamesOne(recs[n - 1]);
  }

  lemma TakenFromMap(front: map<Name, Target>, name: Name, t: Target, rest: map<Name, Target>)
    requires name !in front && name !in rest
    ensures rest + map[name := t] + map[] + front - {name} == rest + front
  {
    hide Utf8;
  }

  lemma NamesAround(front: seq<DirEntry>, dead: seq<DirEntry>, e: DirEntry, rest: seq<DirEntry>)
    requires e.Live() && forall m :: 0 <= m < |dead| ==> !dead[m].Live()
    requires e.name !in Names(front) && e.name !in Names(rest)
    ensures Names(front + (dead + ([e] + rest))) - {e.name} == Names(rest) + Names(front)
  {
    hide Utf8, Names;
    NamesConcat(front, dead + ([e] + rest));
    NamesConcat(dead, [e] + rest);
    NamesConcat([e], rest);
    NamesOne(e);
    DeadNames(dead);
    TakenFromMap(Names(front), e.name, Target(e.inode, e.fileType), Names(rest));
  }

  lemma Split(recs: seq<DirEntry>, n: nat, k: nat)
    requires n <= k < |recs|
    ensures recs == recs[..n] + (recs[n..k] + ([recs[k]] + recs[k + 1..]))
  {
    hide Utf8;
    Around(recs, k);
    assert recs[..k] == recs[..n] + recs[n..k];
    Associative(recs[..n], recs[n..k], [recs[k]] + recs[k + 1..]);
  }

  lemma DeadBetween(recs: seq<DirEntry>, k: nat)
    requires k < |recs|
    ensures forall m :: 0 <= m < |recs[LastLive(recs[..k])..k]| ==> !recs[LastLive(recs[..k])..k][m].Live()
  {
    hide Utf8;
    var n := LastLive(recs[..k]);
    forall m | 0 <= m < k - n
      ensures !recs[n..k][m].Live()
    {
      assert recs[n..k][m] == recs[..k][n + m];
    }
  }

  lemma NamesWithout(recs: seq<DirEntry>, k: nat)
    requires k < |recs| && recs[k].Live() && Unique(recs)
    ensures Names(recs) - {recs[k].name} == Names(recs[k + 1..]) + Names(Ahead(recs, k))
  {
    hide Utf8, Names, Unique, LastLive;
    var n := LastLive(recs[..k]);
    Split(recs, n, k);
    DeadBetween(recs, k);
    NotBefore(recs, n, k);
    NotAfter(recs, k);
    NamesAround(recs[..n], recs[n..k], recs[k], recs[k + 1..]);
  }

  lemma {:induction false} DeadNames(recs: seq<DirEntry>)
    requires forall m :: 0 <= m < |recs| ==> !recs[m].Live()
    ensures Names(recs) == map[]
  {
    hide Utf8;
    if recs != [] {
      DeadNames(recs[1..]);
    }
  }

  /** In a directory without repeated names, other records do not have record `k`'s name. */
  lemma NotBefore(recs: seq<DirEntry>, n: nat, k: nat)
    requires Unique(recs) && n <= k < |recs| && recs[k].Live()
    ensures recs[k].name !in Names(recs[..n])
  {
    hide Utf8, Names;
    NamesIn(recs[..n], recs[k].name);
  }

  lemma NotAfter(recs: seq<DirEntry>, k: nat)
    requires Unique(recs) && k < |recs| && recs[k].Live()
    ensures recs[k].name !in Names(recs[k + 1..])
  {
    hide Utf8, Names;
    NamesIn(recs[k + 1..], recs[k].name);
  }

  /** With dead records in between, if the walk resumes where some record up to the victim
      starts, the removed name is still there. */
  lemma RemovalMisses(b: Block, b': Block, recs: seq<DirEntry>, k: nat, m: nat)
    requires k < |recs| && recs[k].Live() && Tiles(b, 0, recs, UB) && RemovedRec(b, b', recs, k)
    requires LastLive(recs[..k]) > 0 && m <= k && Extent(recs[..m]) == Resume(recs, k)
    ensures Walk(b', 0).Ok? && recs[k].name in Names(RecsOf(b'))
  {
    hide Utf8, Decode, Walk, Names;
    RemovalResumes(b, b', recs, k);
    assert recs == recs[..m] + recs[m..];
    TilesConcat(b, 0, recs[..m], recs[m..], UB);
    WalkTiles(b, Resume(recs, k), recs[m..]);
    var recs' := recs[..LastLive(recs[..k]) - 1] + [Merged(recs, k)] + recs[m..];
    NamesIn(recs', recs[k].name);
    assert recs'[LastLive(recs[..k]) + (k - m)] == recs[k];
  }

  /** With dead records in between, if the walk resumes in the zero bytes after the victim's
      name, the whole directory can no longer be read. */
  lemma RemovalBreaks(b: Block, b': Block, recs: seq<DirEntry>, k: nat)
    requires k < |recs| && recs[k].Live() && Tiles(b, 0, recs, UB) && RemovedRec(b, b', recs, k)
    requires LastLive(recs[..k]) > 0
    requires var (at, resume) := (Extent(recs[..k]), Resume(recs, k));
             && at + |recs[k].name| + 4 <= resume && resume + 10 <= at + recs[k].recLen <= UB
             && forall i :: at + 12 + |recs[k].name| <= i < at + recs[k].recLen ==> b[i] == 0
    ensures Walk(b', 0) == Err(Manifest)
  {
    hide Utf8, Tiles;
    RemovalResumes(b, b', recs, k);
    var resume := Resume(recs, k);
    if resume + 12 <= UB {
      var field := b[resume + 8..resume + 10];
      assert field == Zeros(2);
      FromLeZero(field);
    }
  }
}
