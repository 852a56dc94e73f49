/**
 * The breadth-first rendering walk of `replace` (instantiate.py:71-106).
 *
 * A directory tree is a sequence of entries. A `Dir` carries its children in
 * the order `iterdir` yields them; a `Special` entry is neither a regular file
 * nor a directory (a socket, a FIFO, a dangling link): the walk ignores it,
 * and `copytree` cannot copy it.
 * Paths are sequences of names, relative to the directory being walked.
 */
module Walk {
  import opened Results
  import opened Glob

  type Path = seq<string>

  datatype Entry =
    | File(name: string)
    | Dir(name: string, children: seq<Entry>)
    | Special(name: string)

  /** A directory waiting in the work queue: its path and its children. */
  datatype Visit = Visit(at: Path, children: seq<Entry>)

  /** Every regular file below `at`, skipped or not. */
  function Files(cs: seq<Entry>, at: Path): multiset<Path>
    decreases cs
  {
    if cs == [] then multiset{}
    else
      (match cs[0]
       case File(name) => multiset{at + [name]}
       case Dir(name, children) => Files(children, at + [name])
       case Special(_) => multiset{})
      + Files(cs[1..], at)
  }

  /**
   * The files the walk renders below `at`: an entry whose name `skip` accepts
   * is dropped before it is looked at, so a skipped directory's whole subtree
   * is left out.
   */
  function Targets(cs: seq<Entry>, at: Path, skip: string -> bool): multiset<Path>
    decreases cs
  {
    if cs == [] then multiset{}
    else
      (if skip(cs[0].name) then multiset{}
       else match cs[0]
         case File(name) => multiset{at + [name]}
         case Dir(name, children) => Targets(children, at + [name], skip)
         case Special(_) => multiset{})
      + Targets(cs[1..], at, skip)
  }

  /** No two siblings share a name, at any depth: what a file system guarantees. */
  predicate UniqueNames(cs: seq<Entry>)
    decreases cs
  {
    cs == [] ||
    ((forall j :: 1 <= j < |cs| ==> cs[j].name != cs[0].name) &&
     (cs[0].Dir? ==> UniqueNames(cs[0].children)) &&
     UniqueNames(cs[1..]))
  }

  predicate NoDuplicates(s: seq<Path>) {
    forall i, j :: 0 <= i < j < |s| ==> s[i] != s[j]
  }

  /** No component of `p` from position `from` on is skipped. */
  predicate Unskipped(p: Path, from: nat, skip: string -> bool) {
    forall i :: from <= i < |p| ==> !skip(p[i])
  }

  // ---------------------------------------------------------------------------
  // What the walk renders, stated without the walk
  // ---------------------------------------------------------------------------

  /** Every file path below `at` extends `at` by at least one name, the name of a child. */
  lemma {:induction false} FilesBelow(cs: seq<Entry>, at: Path, p: Path)
    requires p in Files(cs, at)
    ensures |p| > |at| && p[..|at|] == at
    ensures exists k :: 0 <= k < |cs| && cs[k].name == p[|at|]
    decreases cs
  {
    var here := match cs[0]
      case File(name) => multiset{at + [name]}
      case Dir(name, children) => Files(children, at + [name])
      case Special(_) => multiset{};
    if p in here {
      if cs[0].Dir? {
        FilesBelow(cs[0].children, at + [cs[0].name], p);
        assert p[..|at| + 1][..|at|] == at;
      }
    } else {
      FilesBelow(cs[1..], at, p);
      var k :| 0 <= k < |cs[1..]| && cs[1..][k].name == p[|at|];
      assert cs[k + 1].name == p[|at|];
    }
  }

  /**
   * The entries of the template `copytree` cannot copy, by path below `at`:
   * `copy2` fails on a socket, a FIFO or a dangling link. `copytree` copies
   * everything else first and then raises `shutil.Error` listing these.
   */
  function Uncopyable(cs: seq<Entry>, at: Path): multiset<Path>
    decreases cs
  {
    if cs == [] then multiset{}
    else
      (match cs[0]
       case File(_) => multiset{}
       case Dir(name, children) => Uncopyable(children, at + [name])
       case Special(name) => multiset{at + [name]})
      + Uncopyable(cs[1..], at)
  }

  /** Every uncopyable path extends `at` by at least one name, the name of a child. */
  lemma {:induction false} UncopyableBelow(cs: seq<Entry>, at: Path, p: Path)
    requires p in Uncopyable(cs, at)
    ensures |p| > |at| && p[..|at|] == at
    ensures exists k :: 0 <= k < |cs| && cs[k].name == p[|at|]
    decreases cs, 1
  {
    if p in Uncopyable(cs[1..], at) {
      UncopyableBelow(cs[1..], at, p);
      var k :| 0 <= k < |cs[1..]| && cs[1..][k].name == p[|at|];
      assert cs[k + 1].name == p[|at|];
    } else {
      UncopyableBelowFirst(cs, at, p);
    }
  }

  /** An uncopyable path that does not come from the later entries continues with the first entry's name. */
  lemma {:induction false} UncopyableBelowFirst(cs: seq<Entry>, at: Path, p: Path)
    requires cs != [] && p in Uncopyable(cs, at) && p !in Uncopyable(cs[1..], at)
    ensures |p| > |at| && p[..|at|] == at && p[|at|] == cs[0].name
    decreases cs, 0
  {
    match cs[0]
    case Special(name) =>
      assert p == at + [name];
    case Dir(name, children) =>
      UncopyableBelow(children, at + [name], p);
      assert p[..|at| + 1][..|at|] == at;
      assert p[|at|] == p[..|at| + 1][|at|];
  }

  /** `Files` and `Uncopyable` of a directory listing split into its first entry and the rest. */
  lemma {:induction false} SplitFirst(cs: seq<Entry>, at: Path)
    requires cs != []
    ensures Files(cs, at) == Files([cs[0]], at) + Files(cs[1..], at)
    ensures Uncopyable(cs, at) == Uncopyable([cs[0]], at) + Uncopyable(cs[1..], at)
    ensures Files([cs[0]], at) ==
      if cs[0].File? then multiset{at + [cs[0].name]}
      else if cs[0].Dir? then Files(cs[0].children, at + [cs[0].name])
      else multiset{}
    ensures Uncopyable([cs[0]], at) ==
      if cs[0].Special? then multiset{at + [cs[0].name]}
      else if cs[0].Dir? then Uncopyable(cs[0].children, at + [cs[0].name])
      else multiset{}
  {
    assert [cs[0]][1..] == [];
  }

  /** A path below a single entry continues with that entry's name. */
  lemma {:induction false} BelowEntry(e: Entry, at: Path, p: Path)
    ensures p in Files([e], at) || p in Uncopyable([e], at) ==> |p| > |at| && p[|at|] == e.name
  {
    if p in Files([e], at) {
      FilesBelow([e], at, p);
    } else if p in Uncopyable([e], at) {
      UncopyableBelow([e], at, p);
    }
  }

  /** A path below the entries after the first continues with the name of one of them. */
  lemma {:induction false} BelowRest(cs: seq<Entry>, at: Path, p: Path)
    requires cs != []
    ensures p in Files(cs[1..], at) || p in Uncopyable(cs[1..], at) ==>
      |p| > |at| && exists k :: 1 <= k < |cs| && cs[k].name == p[|at|]
  {
    if p in Files(cs[1..], at) {
      FilesBelow(cs[1..], at, p);
      var k :| 0 <= k < |cs[1..]| && cs[1..][k].name == p[|at|];
      assert cs[k + 1].name == p[|at|];
    } else if p in Uncopyable(cs[1..], at) {
      UncopyableBelow(cs[1..], at, p);
      var k :| 0 <= k < |cs[1..]| && cs[1..][k].name == p[|at|];
      assert cs[k + 1].name == p[|at|];
    }
  }

  /**
   * In a tree whose siblings have distinct names, no path `copytree` reports
   * is a regular file: the failure names only entries the walk never renders.
   */
  lemma {:induction false} UncopyableAreNotFiles(cs: seq<Entry>, at: Path, p: Path)
    requires UniqueNames(cs)
    requires p in Uncopyable(cs, at)
    ensures p !in Files(cs, at)
    decreases cs
  {
    var e := cs[0];
    SplitFirst(cs, at);
    BelowEntry(e, at, p);
    BelowRest(cs, at, p);
    if e.Dir? && p in Uncopyable([e], at) {
      UncopyableAreNotFiles(e.children, at + [e.name], p);
    }
    if p in Uncopyable(cs[1..], at) {
      UncopyableAreNotFiles(cs[1..], at, p);
    }
  }

  /**
   * A file is rendered exactly when it is a file of the tree and neither it nor
   * any directory on its way down from `at` is skipped.
   */
  lemma {:induction false} TargetsAreUnskippedFiles(cs: seq<Entry>, at: Path, skip: string -> bool, p: Path)
    ensures p in Targets(cs, at, skip) <==> p in Files(cs, at) && Unskipped(p, |at|, skip)
    decreases cs
  {
    if cs != [] {
      TargetsAreUnskippedFiles(cs[1..], at, skip, p);
      var e := cs[0];
      match e
      case File(name) =>
        if p == at + [name] {
          assert p[|at|] == name;
        }
      case Special(_) =>
      case Dir(name, children) =>
        var at' := at + [name];
        TargetsAreUnskippedFiles(children, at', skip, p);
        if p in Files(children, at') {
          FilesBelow(children, at', p);
          assert p[|at|] == p[..|at'|][|at|] == name;
        }
      if skip(e.name) && p in Files([e], at) {
        FilesBelow([e], at, p);
      }
    }
  }

  /** When nothing is skipped every file of the tree is rendered. */
  lemma {:induction false} NothingSkippedRendersEverything(cs: seq<Entry>, at: Path, skip: string -> bool)
    requires forall name :: !skip(name)
    ensures Targets(cs, at, skip) == Files(cs, at)
    decreases cs
  {
    if cs != [] {
      NothingSkippedRendersEverything(cs[1..], at, skip);
      if cs[0].Dir? {
        NothingSkippedRendersEverything(cs[0].children, at + [cs[0].name], skip);
      }
    }
  }

  /** In a tree whose siblings have distinct names, no path is a target twice. */
  lemma {:induction false} TargetsOnce(cs: seq<Entry>, at: Path, skip: string -> bool)
    requires UniqueNames(cs)
    ensures forall p :: Targets(cs, at, skip)[p] <= 1
    decreases cs
  {
    if cs != [] {
      var e := cs[0];
      var here := if skip(e.name) then multiset{}
        else match e
          case File(name) => multiset{at + [name]}
          case Dir(name, children) => Targets(children, at + [name], skip)
          case Special(_) => multiset{};
      var rest := Targets(cs[1..], at, skip);
      assert Targets(cs, at, skip) == here + rest;
      TargetsOnce(cs[1..], at, skip);
      if e.Dir? {
        TargetsOnce(e.children, at + [e.name], skip);
      }
      forall q | q in rest
        ensures |q| > |at| && q[|at|] != e.name
      {
        TargetsAreUnskippedFiles(cs[1..], at, skip, q);
        FilesBelow(cs[1..], at, q);
        var k :| 0 <= k < |cs[1..]| && cs[1..][k].name == q[|at|];
        assert cs[k + 1].name == q[|at|];
      }
      forall p | p in here
        ensures |p| > |at| && p[|at|] == e.name
      {
        TargetsAreUnskippedFiles([e], at, skip, p);
        FilesBelow([e], at, p);
      }
    }
  }

  // ---------------------------------------------------------------------------
  // The walk
  // ---------------------------------------------------------------------------

  /** The files still to be rendered below the directories in the queue. */
  ghost function Pending(queue: seq<Visit>, skip: string -> bool): multiset<Path> {
    if queue == [] then multiset{}
    else Targets(queue[0].children, queue[0].at, skip) + Pending(queue[1..], skip)
  }

  lemma {:induction false} PendingAppend(queue: seq<Visit>, v: Visit, skip: string -> bool)
    ensures Pending(queue + [v], skip) == Pending(queue, skip) + Targets(v.children, v.at, skip)
  {
    if queue != [] {
      assert (queue + [v])[1..] == queue[1..] + [v];
      PendingAppend(queue[1..], v, skip);
    }
  }

  /** Number of entries in a tree: the walk's termination measure. */
  ghost function Size(cs: seq<Entry>): nat
    decreases cs
  {
    if cs == [] then 0
    else (if cs[0].Dir? then 1 + Size(cs[0].children) else 1) + Size(cs[1..])
  }

  ghost function QueueSize(queue: seq<Visit>): nat {
    if queue == [] then 0 else 1 + Size(queue[0].children) + QueueSize(queue[1..])
  }

  lemma {:induction false} QueueSizeAppend(queue: seq<Visit>, v: Visit)
    ensures QueueSize(queue + [v]) == QueueSize(queue) + 1 + Size(v.children)
  {
    if queue != [] {
      assert (queue + [v])[1..] == queue[1..] + [v];
      QueueSizeAppend(queue[1..], v);
    }
  }

  /** The first `n` render calls in `calls` succeeded. */
  ghost predicate Succeeded<V>(calls: seq<Path>, n: int, variables: V, render: (Path, V) -> bool) {
    forall i :: 0 <= i < n && i < |calls| ==> render(calls[i], variables)
  }

  /** The contribution of a single entry to `Targets`. */
  lemma {:induction false} TargetsOfOne(e: Entry, at: Path, skip: string -> bool)
    ensures Targets([e], at, skip) ==
      if skip(e.name) then multiset{}
      else if e.File? then multiset{at + [e.name]}
      else if e.Dir? then Targets(e.children, at + [e.name], skip)
      else multiset{}
    ensures Size([e]) == if e.Dir? then 1 + Size(e.children) else 1
  {
    assert [e][1..] == [];
  }

  /** A path sequence bounded by a multiset holding each path at most once has no repeats. */
  lemma {:induction false} BoundedOnceNoDuplicates(s: seq<Path>, bound: multiset<Path>)
    requires multiset(s) <= bound
    requires forall p :: bound[p] <= 1
    ensures NoDuplicates(s)
  {
    forall i, j | 0 <= i < j < |s|
      ensures s[i] != s[j]
    {
      assert s == s[..i] + [s[i]] + s[i + 1..j] + [s[j]] + s[j + 1..];
      assert multiset(s)[s[i]] >= multiset([s[i]] + s[i + 1..j] + [s[j]])[s[i]];
    }
  }

  lemma {:induction false} PendingConcat(a: seq<Visit>, b: seq<Visit>, skip: string -> bool)
    ensures Pending(a + b, skip) == Pending(a, skip) + Pending(b, skip)
    ensures QueueSize(a + b) == QueueSize(a) + QueueSize(b)
  {
    if a == [] {
      assert a + b == b;
    } else {
      assert (a + b)[1..] == a[1..] + b;
      PendingConcat(a[1..], b, skip);
    }
  }

  lemma {:induction false} TargetsConcat(a: seq<Entry>, b: seq<Entry>, at: Path, skip: string -> bool)
    ensures Targets(a + b, at, skip) == Targets(a, at, skip) + Targets(b, at, skip)
    ensures Size(a + b) == Size(a) + Size(b)
  {
    if a == [] {
      assert a + b == b;
    } else {
      assert (a + b)[1..] == a[1..] + b;
      TargetsConcat(a[1..], b, at, skip);
    }
  }

  /** The files one pass over `cs` renders, in order: the unskipped regular files. */
  function ScanFiles(cs: seq<Entry>, at: Path, skip: string -> bool): seq<Path>
  {
    if cs == [] then []
    else
      var e := cs[|cs| - 1];
      ScanFiles(cs[..|cs| - 1], at, skip) + (if !skip(e.name) && e.File? then [at + [e.name]] else [])
  }

  /** The directories one pass over `cs` appends to the queue, in order: the unskipped directories. */
  function ScanDirs(cs: seq<Entry>, at: Path, skip: string -> bool): seq<Visit>
  {
    if cs == [] then []
    else
      var e := cs[|cs| - 1];
      ScanDirs(cs[..|cs| - 1], at, skip) + (if !skip(e.name) && e.Dir? then [Visit(at + [e.name], e.children)] else [])
  }

  /**
   * One pass renders the files of `cs` and queues its directories such that
   * together they cover the targets below `at` exactly, and the queued
   * directories are smaller than `cs`.
   */
  lemma {:induction false} ScanCovers(cs: seq<Entry>, at: Path, skip: string -> bool)
    ensures multiset(ScanFiles(cs, at, skip)) + Pending(ScanDirs(cs, at, skip), skip) == Targets(cs, at, skip)
    ensures QueueSize(ScanDirs(cs, at, skip)) <= Size(cs)
    decreases |cs|
  {
    if cs != [] {
      var init, e := cs[..|cs| - 1], cs[|cs| - 1];
      assert cs == init + [e];
      ScanCovers(init, at, skip);
      TargetsConcat(init, [e], at, skip);
      TargetsOfOne(e, at, skip);
      var dirs := ScanDirs(init, at, skip);
      if !skip(e.name) && e.Dir? {
        var v := Visit(at + [e.name], e.children);
        assert ScanDirs(cs, at, skip) == dirs + [v];
        PendingAppend(dirs, v, skip);
        QueueSizeAppend(dirs, v);
      } else {
        assert ScanDirs(cs, at, skip) == dirs;
      }
    }
  }

  /** A pass over a prefix of `cs` renders a prefix of what the whole pass renders. */
  lemma {:induction false} ScanPrefix(cs: seq<Entry>, n: nat, at: Path, skip: string -> bool)
    requires n <= |cs|
    ensures ScanFiles(cs[..n], at, skip) <= ScanFiles(cs, at, skip)
    decreases |cs|
  {
    if n < |cs| {
      var init := cs[..|cs| - 1];
      assert init[..n] == cs[..n];
      ScanPrefix(init, n, at, skip);
    } else {
      assert cs[..n] == cs;
    }
  }

  /** What a pass renders before it stops early is still made of targets. */
  lemma {:induction false} ScanPrefixBounded(cs: seq<Entry>, at: Path, skip: string -> bool, calls: seq<Path>)
    requires calls <= ScanFiles(cs, at, skip)
    ensures multiset(calls) <= Targets(cs, at, skip)
  {
    var files := ScanFiles(cs, at, skip);
    ScanCovers(cs, at, skip);
    assert files == calls + files[|calls|..];
    assert multiset(files) == multiset(calls) + multiset(files[|calls|..]);
  }

  /**
   * The `for` loop of `replace` over the children `cs` of the directory at
   * `at`: it renders the children that are unskipped files, in order, and
   * collects the unskipped directories in `dirs`, the entries it appends to
   * the work queue (rendering never looks at the queue, so appending them
   * after the loop is the same). The render calls it makes are `calls`; it
   * stops at the first failing one.
   */
  method VisitChildren<V>(at: Path, cs: seq<Entry>, skip: string -> bool, variables: V, render: (Path, V) -> bool)
    returns (calls: seq<Path>, dirs: seq<Visit>, failed: Option<Path>)
    ensures failed.None? ==>
      calls == ScanFiles(cs, at, skip) && dirs == ScanDirs(cs, at, skip) &&
      Succeeded(calls, |calls|, variables, render)
    ensures failed.Some? ==>
      calls != [] && calls <= ScanFiles(cs, at, skip) &&
      calls[|calls| - 1] == failed.value && !render(failed.value, variables) &&
      Succeeded(calls, |calls| - 1, variables, render)
  {
    calls, dirs, failed := [], [], None;
    var j := 0;
    while j < |cs|
      invariant 0 <= j <= |cs|
      invariant calls == ScanFiles(cs[..j], at, skip) && dirs == ScanDirs(cs[..j], at, skip)
      invariant Succeeded(calls, |calls|, variables, render)
    {
      var e := cs[j];
      assert cs[..j + 1][..j] == cs[..j];
      if skip(e.name) {
        // dropped before the file/directory test
      } else if e.File? {
        var p := at + [e.name];
        calls := calls + [p];
        if !render(p, variables) {
          ScanPrefix(cs, j + 1, at, skip);
          assert calls[..|calls| - 1] == ScanFiles(cs[..j], at, skip);
          failed := Some(p);
          return;
        }
      } else if e.Dir? {
        dirs := dirs + [Visit(at + [e.name], e.children)];
      }
      j := j + 1;
    }
    assert cs[..j] == cs;
  }

  lemma {:induction false} SucceededConcat<V>(a: seq<Path>, b: seq<Path>, n: int, variables: V, render: (Path, V) -> bool)
    requires Succeeded(a, |a|, variables, render) && Succeeded(b, n, variables, render)
    requires n <= |b|
    ensures Succeeded(a + b, |a| + n, variables, render)
  {
  }

  /** A round that stopped early rendered only targets, the failing call included. */
  lemma {:induction false} FailedRoundBounded(done: multiset<Path>, queue: seq<Visit>, skip: string -> bool,
                                              total: multiset<Path>, calls: seq<Path>)
    requires queue != []
    requires done + Pending(queue, skip) == total
    requires calls != [] && calls <= ScanFiles(queue[0].children, queue[0].at, skip)
    ensures done + multiset(calls) <= total && calls[|calls| - 1] in total
  {
    var cs, at := queue[0].children, queue[0].at;
    assert done + Targets(cs, at, skip) + Pending(queue[1..], skip) == total;
    ScanPrefixBounded(cs, at, skip, calls);
    assert calls[|calls| - 1] in multiset(calls);
  }

  /** The round whose last call failed ends the calls made so far with that call. */
  lemma {:induction false} FailedRound<V>(done: seq<Path>, calls: seq<Path>, rendered: seq<Path>, variables: V, render: (Path, V) -> bool)
    requires rendered == done + calls
    requires Succeeded(done, |done|, variables, render)
    requires calls != [] && Succeeded(calls, |calls| - 1, variables, render)
    ensures rendered != [] && rendered[|rendered| - 1] == calls[|calls| - 1]
    ensures Succeeded(rendered, |rendered| - 1, variables, render)
  {
    SucceededConcat(done, calls, |calls| - 1, variables, render);
  }

  /** Once the queue is empty, every target has been rendered, and rendered successfully. */
  lemma {:induction false} EveryTargetSucceeded<V>(rendered: seq<Path>, total: multiset<Path>, variables: V, render: (Path, V) -> bool)
    requires multiset(rendered) == total && Succeeded(rendered, |rendered|, variables, render)
    ensures forall p :: p in total ==> render(p, variables)
  {
    forall p | p in total
      ensures render(p, variables)
    {
      assert p in multiset(rendered);
      var i :| 0 <= i < |rendered| && rendered[i] == p;
    }
  }

  /**
   * One round of the outer loop that did not fail: rendering the first queued
   * directory's files and queueing its subdirectories keeps the targets
   * covered, and shrinks the queue.
   */
  lemma {:induction false} RoundCovers(done: multiset<Path>, queue: seq<Visit>, skip: string -> bool, total: multiset<Path>)
    requires queue != []
    requires done + Pending(queue, skip) == total
    ensures
      var files, dirs := ScanFiles(queue[0].children, queue[0].at, skip), ScanDirs(queue[0].children, queue[0].at, skip);
      done + multiset(files) + Pending(queue[1..] + dirs, skip) == total &&
      QueueSize(queue[1..] + dirs) < QueueSize(queue)
  {
    ScanCovers(queue[0].children, queue[0].at, skip);
    PendingConcat(queue[1..], ScanDirs(queue[0].children, queue[0].at, skip), skip);
  }

  /**
   * `replace(directory, variables, no_replace, render)`: breadth-first over the
   * tree `root`, rendering every file whose name matches no pattern of
   * `noReplace` and descending into every directory whose name matches none.
   *
   * `render(p, variables)` stands for the injected render call on the file at
   * `p`; it answers false when rendering raises, which ends the walk. The calls
   * made are returned in `rendered`, the last one being the failing call when
   * `failed` is set.
   */
  method Replace<V>(root: seq<Entry>, variables: V, noReplace: Option<seq<string>>, render: (Path, V) -> bool)
    returns (rendered: seq<Path>, failed: Option<Path>)
    ensures failed.None? ==>
      multiset(rendered) == Targets(root, [], Skipper(noReplace)) &&
      Succeeded(rendered, |rendered|, variables, render)
    ensures failed.Some? ==>
      multiset(rendered) <= Targets(root, [], Skipper(noReplace)) &&
      rendered != [] && rendered[|rendered| - 1] == failed.value && !render(failed.value, variables) &&
      Succeeded(rendered, |rendered| - 1, variables, render)
    ensures failed.Some? <==> exists p :: p in Targets(root, [], Skipper(noReplace)) && !render(p, variables)
    ensures UniqueNames(root) ==> NoDuplicates(rendered)
  {
    var skip := Skipper(noReplace);
    ghost var total := Targets(root, [], skip);
    var queue := [Visit([], root)];
    assert Pending(queue, skip) == total;
    rendered, failed := [], None;
    while queue != []
      invariant multiset(rendered) + Pending(queue, skip) == total
      invariant Succeeded(rendered, |rendered|, variables, render)
      invariant failed.None?
      decreases QueueSize(queue)
    {
      var current := queue[0];
      ghost var before := rendered;
      var calls, dirs;
      calls, dirs, failed := VisitChildren(current.at, current.children, skip, variables, render);
      rendered := rendered + calls;
      if failed.Some? {
        FailedRoundBounded(multiset(before), queue, skip, total, calls);
        FailedRound(before, calls, rendered, variables, render);
        break;
      }
      RoundCovers(multiset(before), queue, skip, total);
      SucceededConcat(before, calls, |calls|, variables, render);
      queue := queue[1..] + dirs;
    }
    if failed.None? {
      EveryTargetSucceeded(rendered, total, variables, render);
    }
    if UniqueNames(root) {
      TargetsOnce(root, [], skip);
      BoundedOnceNoDuplicates(rendered, total);
    }
  }
}
