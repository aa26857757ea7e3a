/** The descendants of a process, found breadth first over one reading of /proc and without a visited set. */
module ProcessTree {
  import opened Seqs
  import opened Text

  /** A directory entry: the pid its name spells and the parent its status file names, where readable. */
  datatype Entry = Entry(isDir: bool, pid: Option<int>, ppid: Option<int>)

  datatype Proc = Proc(pid: int, ppid: int)

  predicate Usable(e: Entry) {
    e.isDir && e.pid.Some? && e.pid.value > 0 && e.ppid.Some?
  }

  function Procs(entries: seq<Entry>): seq<Proc> {
    if entries == [] then []
    else
      var e := entries[|entries|-1];
      Procs(entries[..|entries|-1]) + if Usable(e) then [Proc(e.pid.value, e.ppid.value)] else []
  }

  /** The processes are the directories with a positive number for a name and a readable parent. */
  lemma {:induction false} ProcsAre(entries: seq<Entry>, p: Proc)
    ensures p in Procs(entries) <==>
            exists i :: 0 <= i < |entries| && entries[i].isDir && entries[i].pid == Some(p.pid) && p.pid > 0
                        && entries[i].ppid == Some(p.ppid)
  {
    if entries != [] {
      var front, last := entries[..|entries|-1], entries[|entries|-1];
      ProcsAre(front, p);
      if i :| 0 <= i < |front| && front[i].isDir && front[i].pid == Some(p.pid) && p.pid > 0
              && front[i].ppid == Some(p.ppid) {
        assert entries[i] == front[i];
      }
      assert entries[|front|] == last;
    }
  }

  /** Each pid is listed, and so has a parent, once. */
  predicate Unique(procs: seq<Proc>) {
    forall i, j :: 0 <= i < j < |procs| ==> procs[i].pid != procs[j].pid
  }

  function Children(procs: seq<Proc>, p: int): seq<int> {
    if procs == [] then []
    else
      var last := procs[|procs|-1];
      Children(procs[..|procs|-1], p) + if last.ppid == p then [last.pid] else []
  }

  lemma {:induction false} ChildrenAre(procs: seq<Proc>, p: int, c: int)
    ensures c in Children(procs, p) <==> Proc(c, p) in procs
  {
    if procs != [] {
      var front, last := procs[..|procs|-1], procs[|procs|-1];
      ChildrenAre(front, p, c);
      assert Proc(c, p) in procs <==> Proc(c, p) in front || Proc(c, p) == last;
    }
  }

  lemma {:induction false} ChildrenDistinct(procs: seq<Proc>, p: int)
    requires Unique(procs)
    ensures Distinct(Children(procs, p))
  {
    if procs != [] {
      var front, last := procs[..|procs|-1], procs[|procs|-1];
      ChildrenDistinct(front, p);
      ChildrenAre(front, p, last.pid);
    }
  }

  /** `to` is `n` generations below `from`. */
  ghost predicate Below(procs: seq<Proc>, from: int, to: int, n: nat)
    decreases n
  {
    if n == 0 then from == to else exists c :: c in Children(procs, from) && Below(procs, c, to, n - 1)
  }

  ghost predicate Descendant(procs: seq<Proc>, root: int, x: int) {
    exists n: nat :: n > 0 && Below(procs, root, x, n)
  }

  lemma {:induction false} BelowSnoc(procs: seq<Proc>, from: int, mid: int, to: int, n: nat)
    requires Below(procs, from, mid, n) && to in Children(procs, mid)
    ensures Below(procs, from, to, n + 1)
    decreases n
  {
    if n > 0 {
      var c :| c in Children(procs, from) && Below(procs, c, mid, n - 1);
      BelowSnoc(procs, c, mid, to, n - 1);
    } else {
      assert Below(procs, to, to, 0);
    }
  }

  // ----- The search -----

  /** `done` are the pids taken off the queue so far. */
  datatype Search = Search(done: seq<int>, queue: seq<int>, out: seq<int>)

  function Start(root: int): Search {
    Search([], [root], [])
  }

  function Step(procs: seq<Proc>, s: Search): Search {
    if s.queue == [] then s
    else
      var kids := Children(procs, s.queue[0]);
      Search(s.done + [s.queue[0]], s.queue[1..] + kids, s.out + kids)
  }

  function Steps(procs: seq<Proc>, root: int, n: nat): Search {
    if n == 0 then Start(root) else Step(procs, Steps(procs, root, n - 1))
  }

  /** Output `i` is a child of something taken off the queue no later than at position `i`. */
  ghost predicate HasParent(procs: seq<Proc>, s: Search, i: nat)
    requires i < |s.out|
  {
    exists j :: 0 <= j <= i && j < |s.done| && s.out[i] in Children(procs, s.done[j])
  }

  ghost predicate Covered(procs: seq<Proc>, s: Search) {
    && (forall i :: 0 <= i < |s.out| ==> HasParent(procs, s, i))
    && (forall j, c :: 0 <= j < |s.done| && c in Children(procs, s.done[j]) ==> c in s.out)
  }

  ghost predicate Inv(procs: seq<Proc>, root: int, s: Search) {
    && s.done + s.queue == [root] + s.out
    && Distinct([root] + s.out)
    && (forall x :: x in s.out ==> Descendant(procs, root, x))
    && Covered(procs, s)
  }

  /** The children of the given processes, one after the other. */
  function KidsOf(procs: seq<Proc>, ps: seq<int>): seq<int> {
    if ps == [] then [] else KidsOf(procs, ps[..|ps|-1]) + Children(procs, ps[|ps|-1])
  }

  lemma KidsSnoc(procs: seq<Proc>, ps: seq<int>, p: int)
    ensures KidsOf(procs, ps + [p]) == KidsOf(procs, ps) + Children(procs, p)
  {
    assert (ps + [p])[..|ps|] == ps;
  }

  /** Children are listed in the order in which the directory lists them. */
  lemma {:induction false} ChildrenInOrder(a: seq<Proc>, b: seq<Proc>, p: int)
    ensures Children(a + b, p) == Children(a, p) + Children(b, p)
  {
    if b == [] {
      assert a + b == a;
    } else {
      assert (a + b)[..|a + b|-1] == a + b[..|b|-1];
      ChildrenInOrder(a, b[..|b|-1], p);
    }
  }

  lemma OneParent(procs: seq<Proc>, c: int, p: int, q: int)
    requires Unique(procs) && c in Children(procs, p) && c in Children(procs, q)
    ensures p == q
  {
    ChildrenAre(procs, p, c);
    ChildrenAre(procs, q, c);
    var i :| 0 <= i < |procs| && procs[i] == Proc(c, p);
    var j :| 0 <= j < |procs| && procs[j] == Proc(c, q);
    assert i == j;
  }

  lemma KidsDescend(procs: seq<Proc>, root: int, s: Search, c: int)
    requires Inv(procs, root, s) && s.queue != [] && c in Children(procs, s.queue[0])
    ensures Descendant(procs, root, c)
  {
    var cur := s.queue[0];
    assert cur == (s.done + s.queue)[|s.done|] == ([root] + s.out)[|s.done|];
    if cur == root {
      BelowSnoc(procs, root, root, c, 0);
    } else {
      assert cur in s.out;
      var n: nat :| n > 0 && Below(procs, root, cur, n);
      BelowSnoc(procs, root, cur, c, n);
    }
  }

  /** A process already output is no child of the one at the head of the queue. */
  lemma KidsAreNew(procs: seq<Proc>, root: int, s: Search, c: int)
    requires Unique(procs) && Inv(procs, root, s) && s.queue != [] && c in Children(procs, s.queue[0])
    ensures c !in s.out
  {
    if c in s.out {
      var all := [root] + s.out;
      var i :| 0 <= i < |s.out| && s.out[i] == c;
      assert HasParent(procs, s, i);
      var j :| 0 <= j <= i && j < |s.done| && s.out[i] in Children(procs, s.done[j]);
      assert s.done[j] == (s.done + s.queue)[j] == all[j];
      assert s.queue[0] == (s.done + s.queue)[|s.done|] == all[|s.done|];
      OneParent(procs, c, s.done[j], s.queue[0]);
      assert false;
    }
  }

  lemma DistinctConcat(a: seq<int>, b: seq<int>)
    requires Distinct(a) && Distinct(b) && forall x :: x in b ==> x !in a
    ensures Distinct(a + b)
  {
    forall i, j | 0 <= i < j < |a + b| ensures (a + b)[i] != (a + b)[j] {
      if i < |a| <= j {
        assert (a + b)[j] in b;
      }
    }
  }

  lemma CoveredStep(procs: seq<Proc>, s: Search)
    requires Covered(procs, s) && s.queue != [] && |s.done| <= |s.out|
    ensures Covered(procs, Step(procs, s))
  {
    var s' := Step(procs, s);
    forall i | 0 <= i < |s'.out| ensures HasParent(procs, s', i) {
      if i < |s.out| {
        assert HasParent(procs, s, i);
        var j :| 0 <= j <= i && j < |s.done| && s.out[i] in Children(procs, s.done[j]);
        assert s'.done[j] == s.done[j];
      } else {
        assert s'.done[|s.done|] == s.queue[0];
      }
    }
    forall j, c | 0 <= j < |s'.done| && c in Children(procs, s'.done[j]) ensures c in s'.out {
      if j < |s.done| {
        assert c in Children(procs, s.done[j]);
      }
    }
  }

  lemma StepKeepsInv(procs: seq<Proc>, root: int, s: Search)
    requires Unique(procs) && !Descendant(procs, root, root) && Inv(procs, root, s) && s.queue != []
    ensures Inv(procs, root, Step(procs, s))
  {
    var s', kids := Step(procs, s), Children(procs, s.queue[0]);
    assert |s.done + s.queue| == 1 + |s.out|;
    assert s'.done + s'.queue == s.done + s.queue + kids == [root] + s.out + kids == [root] + s'.out;
    forall c | c in kids ensures Descendant(procs, root, c) && c !in [root] + s.out {
      KidsDescend(procs, root, s, c);
      KidsAreNew(procs, root, s, c);
    }
    ChildrenDistinct(procs, s.queue[0]);
    DistinctConcat([root] + s.out, kids);
    CoveredStep(procs, s);
  }

  lemma {:induction false} DistinctWithin(xs: seq<int>, all: set<int>)
    requires Distinct(xs) && forall x :: x in xs ==> x in all
    ensures |xs| <= |all|
  {
    if xs != [] {
      var last := xs[|xs|-1];
      forall x | x in xs[..|xs|-1] ensures x in all - {last} {
        var i :| 0 <= i < |xs| - 1 && xs[i] == x;
      }
      DistinctWithin(xs[..|xs|-1], all - {last});
    }
  }

  lemma {:induction false} PidCount(procs: seq<Proc>)
    ensures |Pids(procs)| <= |procs|
    ensures forall i :: 0 <= i < |procs| ==> procs[i].pid in Pids(procs)
  {
    if procs != [] {
      PidCount(procs[..|procs|-1]);
    }
  }

  function Pids(procs: seq<Proc>): set<int> {
    if procs == [] then {} else Pids(procs[..|procs|-1]) + {procs[|procs|-1].pid}
  }

  /** No more pids can be taken off the queue than there are processes, and the root. */
  lemma DoneBounded(procs: seq<Proc>, root: int, s: Search)
    requires Inv(procs, root, s)
    ensures |s.done| <= |procs| + 1
  {
    PidCount(procs);
    var all := [root] + s.out;
    forall x | x in all ensures x in Pids(procs) + {root} {
      if x in s.out {
        var i :| 0 <= i < |s.out| && s.out[i] == x;
        assert HasParent(procs, s, i);
        var j :| 0 <= j <= i && j < |s.done| && s.out[i] in Children(procs, s.done[j]);
        ChildrenAre(procs, s.done[j], x);
        var k :| 0 <= k < |procs| && procs[k] == Proc(x, s.done[j]);
      }
    }
    DistinctWithin(all, Pids(procs) + {root});
    assert |s.done| <= |s.done + s.queue|;
  }

  lemma FinishedIsClosed(procs: seq<Proc>, root: int, s: Search, x: int, c: int)
    requires Inv(procs, root, s) && s.queue == [] && (x == root || x in s.out) && c in Children(procs, x)
    ensures c in s.out
  {
    assert s.done == s.done + s.queue == [root] + s.out;
    assert x in [root] + s.out;
    var j :| 0 <= j < |s.done| && s.done[j] == x;
  }

  /** When the queue is empty, every descendant has been output. */
  lemma {:induction false} AllFound(procs: seq<Proc>, root: int, s: Search, from: int, x: int, n: nat)
    requires Inv(procs, root, s) && s.queue == [] && (from == root || from in s.out) && Below(procs, from, x, n)
    ensures x == from || x in s.out
    decreases n
  {
    if n > 0 {
      var c :| c in Children(procs, from) && Below(procs, c, x, n - 1);
      FinishedIsClosed(procs, root, s, from, c);
      AllFound(procs, root, s, c, x, n - 1);
    }
  }

  /** Output `i` is a child of the root or of an earlier output. */
  ghost predicate AfterParent(procs: seq<Proc>, root: int, out: seq<int>, i: nat)
    requires i < |out|
  {
    out[i] in Children(procs, root) || exists j :: 0 <= j < i && out[i] in Children(procs, out[j])
  }

  /** The promise: exactly the proper descendants, each once, each after its parent. */
  ghost predicate IsTreeBelow(procs: seq<Proc>, root: int, out: seq<int>) {
    && Distinct(out)
    && (forall x :: x in out <==> Descendant(procs, root, x))
    && (forall i :: 0 <= i < |out| ==> AfterParent(procs, root, out, i))
  }

  /** Breadth first: the children of the root, then those of each process in the order they are listed. */
  ghost predicate BreadthFirst(procs: seq<Proc>, root: int, out: seq<int>) {
    out == KidsOf(procs, [root] + out)
  }

  lemma FinishedInOrder(procs: seq<Proc>, root: int, s: Search, i: nat)
    requires Inv(procs, root, s) && s.queue == [] && i < |s.out|
    ensures AfterParent(procs, root, s.out, i)
  {
    assert HasParent(procs, s, i);
    var j :| 0 <= j <= i && j < |s.done| && s.out[i] in Children(procs, s.done[j]);
    assert s.done[j] == (s.done + s.queue)[j] == ([root] + s.out)[j];
    if j > 0 {
      assert s.done[j] == s.out[j - 1];
    }
  }

  lemma FinishedIsTree(procs: seq<Proc>, root: int, s: Search)
    requires !Descendant(procs, root, root) && Inv(procs, root, s) && s.queue == []
    ensures IsTreeBelow(procs, root, s.out)
  {
    var all := [root] + s.out;
    forall i, j | 0 <= i < j < |s.out| ensures s.out[i] != s.out[j] {
      assert all[i + 1] == s.out[i] && all[j + 1] == s.out[j];
    }
    forall x | Descendant(procs, root, x) ensures x in s.out {
      var n: nat :| n > 0 && Below(procs, root, x, n);
      AllFound(procs, root, s, root, x, n);
    }
    forall i | 0 <= i < |s.out| ensures AfterParent(procs, root, s.out, i) {
      FinishedInOrder(procs, root, s, i);
    }
  }

  // ----- Termination -----

  /** The search comes to an end. */
  ghost predicate Halts(procs: seq<Proc>, root: int) {
    exists n: nat :: Steps(procs, root, n).queue == []
  }

  lemma StartInv(procs: seq<Proc>, root: int)
    ensures Inv(procs, root, Start(root))
  {}

  lemma {:induction false} StepsKeepInv(procs: seq<Proc>, root: int, n: nat)
    requires Unique(procs) && !Descendant(procs, root, root) && !Halts(procs, root)
    ensures Inv(procs, root, Steps(procs, root, n)) && |Steps(procs, root, n).done| == n
  {
    if n > 0 {
      StepsKeepInv(procs, root, n - 1);
      StepKeepsInv(procs, root, Steps(procs, root, n - 1));
    } else {
      StartInv(procs, root);
    }
  }

  /** Some process in the queue leads down to the root. */
  ghost predicate Looping(procs: seq<Proc>, root: int, s: Search) {
    exists i, m: nat :: 0 <= i < |s.queue| && Below(procs, s.queue[i], root, m)
  }

  lemma LoopingStep(procs: seq<Proc>, root: int, s: Search)
    requires Descendant(procs, root, root) && Looping(procs, root, s)
    ensures Looping(procs, root, Step(procs, s))
  {
    var s' := Step(procs, s);
    var i, m: nat :| 0 <= i < |s.queue| && Below(procs, s.queue[i], root, m);
    if i > 0 {
      assert s'.queue[i - 1] == s.queue[i];
    } else {
      var n: nat :| n > 0 && Below(procs, s.queue[0], root, n);
      var c :| c in Children(procs, s.queue[0]) && Below(procs, c, root, n - 1);
      assert c in s'.queue;
      var k :| 0 <= k < |s'.queue| && s'.queue[k] == c;
      assert Below(procs, s'.queue[k], root, n - 1);
    }
  }

  lemma {:induction false} LoopsForever(procs: seq<Proc>, root: int, n: nat)
    requires Descendant(procs, root, root)
    ensures Looping(procs, root, Steps(procs, root, n))
  {
    if n == 0 {
      assert Start(root).queue[0] == root && Below(procs, root, root, 0);
    } else {
      LoopsForever(procs, root, n - 1);
      LoopingStep(procs, root, Steps(procs, root, n - 1));
    }
  }

  /** Without a visited set, the search ends exactly when the root is not its own descendant. */
  lemma HaltsIff(procs: seq<Proc>, root: int)
    requires Unique(procs)
    ensures Halts(procs, root) <==> !Descendant(procs, root, root)
  {
    if Descendant(procs, root, root) {
      forall n: nat ensures Steps(procs, root, n).queue != [] {
        LoopsForever(procs, root, n);
      }
    } else if !Halts(procs, root) {
      StepsKeepInv(procs, root, |procs| + 2);
      DoneBounded(procs, root, Steps(procs, root, |procs| + 2));
    }
  }

  /** Two processes that are each other's parent. */
  lemma SearchLoops()
    ensures var procs := [Proc(2, 3), Proc(3, 2)]; Unique(procs) && !Halts(procs, 2)
  {
    var procs := [Proc(2, 3), Proc(3, 2)];
    ChildrenAre(procs, 2, 3);
    ChildrenAre(procs, 3, 2);
    assert procs[0] == Proc(2, 3) && procs[1] == Proc(3, 2);
    assert Below(procs, 2, 2, 0);
    assert Below(procs, 3, 2, 1);
    assert Below(procs, 2, 2, 2);
    HaltsIff(procs, 2);
  }

  // ----- The method -----

  function Lookup(parents: map<int, seq<int>>, p: int): seq<int> {
    if p in parents then parents[p] else []
  }

  ghost predicate MapsChildren(parents: map<int, seq<int>>, procs: seq<Proc>) {
    forall p :: Lookup(parents, p) == Children(procs, p)
  }

  method ReadParents(entries: seq<Entry>) returns (parents: map<int, seq<int>>)
    ensures MapsChildren(parents, Procs(entries))
  {
    parents := map[];
    for n := 0 to |entries|
      invariant MapsChildren(parents, Procs(entries[..n]))
    {
      var e := entries[n];
      ghost var procs := Procs(entries[..n]);
      assert entries[..n + 1][..n] == entries[..n];
      assert procs + [] == procs;
      if !Usable(e) { continue; }
      var pid, ppid := e.pid.value, e.ppid.value;
      ghost var before := parents;
      parents := parents[ppid := Lookup(parents, ppid) + [pid]];
      assert (procs + [Proc(pid, ppid)])[..|procs|] == procs;
      forall p ensures Lookup(parents, p) == Children(procs + [Proc(pid, ppid)], p) {
        assert Lookup(before, p) == Children(procs, p);
      }
      assert Procs(entries[..n + 1]) == procs + [Proc(pid, ppid)];
    }
    assert entries[..|entries|] == entries;
  }

  /** The first rounds of the loop below, on any table: where it stands after them, ended or not. */
  method SearchFor(root: int, entries: seq<Entry>, rounds: nat) returns (out: seq<int>, queue: seq<int>)
    ensures var s := Steps(Procs(entries), root, rounds); out == s.out && queue == s.queue
  {
    var parents := ReadParents(entries);
    ghost var procs := Procs(entries);
    out, queue := [], [root];
    for n := 0 to rounds
      invariant out == Steps(procs, root, n).out && queue == Steps(procs, root, n).queue
    {
      if |queue| > 0 {
        var cur := queue[0];
        assert Lookup(parents, cur) == Children(procs, cur);
        queue := queue[1..] + Lookup(parents, cur);
        out := out + Lookup(parents, cur);
      }
    }
  }

  /** `listProcessChildren` */
  method ListProcessChildren(root: int, entries: seq<Entry>) returns (out: seq<int>)
    requires Unique(Procs(entries)) && !Descendant(Procs(entries), root, root)
    ensures IsTreeBelow(Procs(entries), root, out) && BreadthFirst(Procs(entries), root, out)
  {
    var parents := ReadParents(entries);
    ghost var procs := Procs(entries);
    out := [];
    var queue := [root];
    ghost var done: seq<int> := [];
    StartInv(procs, root);
    while |queue| > 0
      invariant Inv(procs, root, Search(done, queue, out)) && out == KidsOf(procs, done)
      decreases |procs| + 1 - |done|
    {
      ghost var s := Search(done, queue, out);
      StepKeepsInv(procs, root, s);
      DoneBounded(procs, root, Step(procs, s));
      var cur := queue[0];
      queue := queue[1..];
      KidsSnoc(procs, done, cur);
      done := done + [cur];
      assert Lookup(parents, cur) == Children(procs, cur);
      out := out + Lookup(parents, cur);
      queue := queue + Lookup(parents, cur);
      assert Search(done, queue, out) == Step(procs, s);
    }
    FinishedIsTree(procs, root, Search(done, queue, out));
    assert done == done + queue == [root] + out;
  }
}
