/** The workflow of the pydbt generation. Besides the level loop it shares with pydwt, it
    can reuse the tasks of a cached run: `get_latest_run_tasks` picks the newest artifact
    by the timestamp in its file name, and `compare_tasks` merges the cached task list
    with the freshly registered one. The merge is specified here over the task
    definitions (what task equality compares), as a list of picks: each pick says, for
    one position of the fresh list, whether the result holds the fresh task there or a
    cached one. */
module PydbtWorkflow {
  import opened Common
  import opened Schedule
  import opened Levels
  import opened LevelRuns
  import opened PydbtTask
  import opened PydbtArtifacts
  import PydbtDag

  /** One entry of the merged list: the fresh task at position i of `news`, or the cached
      task at position j of `olds` standing in for the fresh task at position i. */
  datatype Pick = NewTask(i: nat) | OldTask(i: nat, j: nat)

  /** `[task.name for task in ts]` over definitions. */
  function Names(ds: seq<Definition>): (r: seq<string>)
    ensures |r| == |ds| && forall j :: 0 <= j < |ds| ==> r[j] == ds[j].name
  {
    if ds == [] then [] else Names(ds[..|ds| - 1]) + [ds[|ds| - 1].name]
  }

  /** What the loop does with the fresh task at position i when its name was in the
      cache: `next` finds the first cached task of that name; an unequal one is replaced
      by the fresh task, an equal one is kept. */
  function Choice(olds: seq<Definition>, news: seq<Definition>, i: nat): (p: Pick)
    requires i < |news| && news[i].name in Names(olds)
  {
    var j := FirstIndex(Names(olds), news[i].name).value;
    if olds[j] != news[i] then NewTask(i) else OldTask(i, j)
  }

  /** The pick for the fresh task at position i: a name the cache does not know is added
      as it is; any other is decided by `Choice`. */
  function Expected(olds: seq<Definition>, news: seq<Definition>, i: nat): (p: Pick)
    requires i < |news|
  {
    if news[i].name in Names(olds) then Choice(olds, news, i) else NewTask(i)
  }

  /** `added`, over the first k fresh tasks: those whose name the cache does not know. */
  function Added(olds: seq<Definition>, news: seq<Definition>, k: nat): seq<Pick>
    requires k <= |news|
  {
    if k == 0 then []
    else Added(olds, news, k - 1) + (if news[k - 1].name !in Names(olds) then [NewTask(k - 1)] else [])
  }

  /** `updated` after the first k iterations of the loop. */
  function Updated(olds: seq<Definition>, news: seq<Definition>, k: nat): seq<Pick>
    requires k <= |news|
  {
    if k == 0 then []
    else Updated(olds, news, k - 1) + (if news[k - 1].name in Names(olds) then [Choice(olds, news, k - 1)] else [])
  }

  /** `[*added, *updated]`. */
  function Picks(olds: seq<Definition>, news: seq<Definition>): seq<Pick> {
    Added(olds, news, |news|) + Updated(olds, news, |news|)
  }

  /** The added picks are the fresh tasks with unknown names, each once, in fresh order. */
  lemma {:induction false} AddedSpec(olds: seq<Definition>, news: seq<Definition>, k: nat)
    requires k <= |news|
    ensures forall m :: 0 <= m < |Added(olds, news, k)| ==>
      var p := Added(olds, news, k)[m];
      p.i < k && news[p.i].name !in Names(olds) && p == NewTask(p.i)
    ensures forall m, n :: 0 <= m < n < |Added(olds, news, k)| ==> Added(olds, news, k)[m].i < Added(olds, news, k)[n].i
    ensures forall i :: 0 <= i < k && news[i].name !in Names(olds) ==> NewTask(i) in Added(olds, news, k)
  {
    if k > 0 {
      AddedSpec(olds, news, k - 1);
    }
  }

  /** The updated picks are the choices for the fresh tasks with known names, each once,
      in fresh order. */
  lemma {:induction false} UpdatedSpec(olds: seq<Definition>, news: seq<Definition>, k: nat)
    requires k <= |news|
    ensures forall m :: 0 <= m < |Updated(olds, news, k)| ==>
      var p := Updated(olds, news, k)[m];
      p.i < k && news[p.i].name in Names(olds) && p == Choice(olds, news, p.i)
    ensures forall m, n :: 0 <= m < n < |Updated(olds, news, k)| ==> Updated(olds, news, k)[m].i < Updated(olds, news, k)[n].i
    ensures forall i :: 0 <= i < k && news[i].name in Names(olds) ==> Choice(olds, news, i) in Updated(olds, news, k)
  {
    if k > 0 {
      UpdatedSpec(olds, news, k - 1);
    }
  }

  /** Between them the two lists hold one pick per fresh task. */
  lemma {:induction false} PicksCount(olds: seq<Definition>, news: seq<Definition>, k: nat)
    requires k <= |news|
    ensures |Added(olds, news, k)| + |Updated(olds, news, k)| == k
  {
    if k > 0 {
      PicksCount(olds, news, k - 1);
    }
  }

  /** Each pick stands for a fresh position and is the one expected there; the picks
      for unknown names are exactly the added ones at the front. */
  lemma PicksAreExpected(olds: seq<Definition>, news: seq<Definition>)
    ensures |Picks(olds, news)| == |news|
    ensures forall m :: 0 <= m < |Picks(olds, news)| ==>
      && Picks(olds, news)[m].i < |news| && Picks(olds, news)[m] == Expected(olds, news, Picks(olds, news)[m].i)
      && (m < |Added(olds, news, |news|)| <==> news[Picks(olds, news)[m].i].name !in Names(olds))
  {
    var a := Added(olds, news, |news|);
    var u := Updated(olds, news, |news|);
    var ps := Picks(olds, news);
    AddedSpec(olds, news, |news|);
    UpdatedSpec(olds, news, |news|);
    PicksCount(olds, news, |news|);
    forall m | 0 <= m < |ps|
      ensures ps[m].i < |news| && ps[m] == Expected(olds, news, ps[m].i)
      ensures m < |a| <==> news[ps[m].i].name !in Names(olds)
    {
      if m < |a| {
        assert ps[m] == a[m];
      } else {
        assert ps[m] == u[m - |a|];
      }
    }
  }

  /** Every fresh position has its expected pick. */
  lemma PicksComplete(olds: seq<Definition>, news: seq<Definition>)
    ensures forall i :: 0 <= i < |news| ==> Expected(olds, news, i) in Picks(olds, news)
  {
    var a := Added(olds, news, |news|);
    var u := Updated(olds, news, |news|);
    AddedSpec(olds, news, |news|);
    UpdatedSpec(olds, news, |news|);
    forall i | 0 <= i < |news|
      ensures Expected(olds, news, i) in a + u
    {
      if news[i].name in Names(olds) {
        assert Choice(olds, news, i) in u;
      } else {
        assert NewTask(i) in a;
      }
    }
  }

  /** Within the added picks and within the updated ones, fresh positions increase. */
  lemma PicksOrdered(olds: seq<Definition>, news: seq<Definition>)
    ensures forall m, n ::
      (0 <= m < n < |Picks(olds, news)| && (n < |Added(olds, news, |news|)| || m >= |Added(olds, news, |news|)|))
      ==> Picks(olds, news)[m].i < Picks(olds, news)[n].i
  {
    var a := Added(olds, news, |news|);
    var u := Updated(olds, news, |news|);
    var ps := Picks(olds, news);
    AddedSpec(olds, news, |news|);
    UpdatedSpec(olds, news, |news|);
    forall m, n | 0 <= m < n < |ps| && (n < |a| || m >= |a|)
      ensures ps[m].i < ps[n].i
    {
      if n < |a| {
        assert ps[m] == a[m] && ps[n] == a[n];
      } else {
        assert ps[m] == u[m - |a|] && ps[n] == u[n - |a|];
      }
    }
  }

  /** `compare_tasks` returns one entry per fresh task: every pick is the expected one for
      the fresh position it stands for, every fresh position has its pick, no position
      has two, and the picks for unknown names come first, each group in fresh order. */
  lemma CompareTasksSpec(olds: seq<Definition>, news: seq<Definition>)
    ensures |Picks(olds, news)| == |news|
    ensures forall m :: 0 <= m < |Picks(olds, news)| ==>
      Picks(olds, news)[m].i < |news| && Picks(olds, news)[m] == Expected(olds, news, Picks(olds, news)[m].i)
    ensures forall i :: 0 <= i < |news| ==> Expected(olds, news, i) in Picks(olds, news)
    ensures forall m, n :: 0 <= m < n < |Picks(olds, news)| ==> Picks(olds, news)[m].i != Picks(olds, news)[n].i
    ensures forall m, n :: 0 <= m < n < |Picks(olds, news)| && news[Picks(olds, news)[n].i].name !in Names(olds) ==>
      news[Picks(olds, news)[m].i].name !in Names(olds) && Picks(olds, news)[m].i < Picks(olds, news)[n].i
    ensures forall m, n :: 0 <= m < n < |Picks(olds, news)| && news[Picks(olds, news)[m].i].name in Names(olds) ==>
      Picks(olds, news)[m].i < Picks(olds, news)[n].i
  {
    PicksAreExpected(olds, news);
    PicksComplete(olds, news);
    PicksOrdered(olds, news);
    var ps := Picks(olds, news);
    var na := |Added(olds, news, |news|)|;
    forall m, n | 0 <= m < n < |ps|
      ensures ps[m].i != ps[n].i
    {
      if m < na <= n {
        assert news[ps[m].i].name !in Names(olds) && news[ps[n].i].name in Names(olds);
      }
    }
  }

  /** A pick refers to a fresh position and, when it keeps a cached task, to a cached one. */
  predicate ValidPick(olds: seq<Definition>, news: seq<Definition>, p: Pick) {
    p.i < |news| && (p.OldTask? ==> p.j < |olds|)
  }

  /** The definition of the task a pick puts in the result. */
  function PickDef(olds: seq<Definition>, news: seq<Definition>, p: Pick): Definition
    requires ValidPick(olds, news, p)
  {
    if p.NewTask? then news[p.i] else olds[p.j]
  }

  /** The name of the task a pick puts in the result ("" for a pick out of range). */
  function PickName(olds: seq<Definition>, news: seq<Definition>, p: Pick): string {
    if ValidPick(olds, news, p) then PickDef(olds, news, p).name else ""
  }

  /** The names of the tasks the picks put in the result. */
  function PickNames(olds: seq<Definition>, news: seq<Definition>, ps: seq<Pick>): (r: seq<string>)
    ensures |r| == |ps|
  {
    seq(|ps|, m requires 0 <= m < |ps| => PickName(olds, news, ps[m]))
  }

  /** The expected pick for a fresh task puts a task of the same name in the result; a
      cached task is kept only when it equals the fresh one. */
  lemma ExpectedKeepsName(olds: seq<Definition>, news: seq<Definition>, i: nat)
    requires i < |news|
    ensures ValidPick(olds, news, Expected(olds, news, i))
    ensures PickDef(olds, news, Expected(olds, news, i)).name == news[i].name
    ensures Expected(olds, news, i).OldTask? ==> PickDef(olds, news, Expected(olds, news, i)) == news[i]
  {
  }

  lemma {:induction false} PicksValidUpTo(olds: seq<Definition>, news: seq<Definition>, k: nat)
    requires k <= |news|
    ensures forall p :: p in Added(olds, news, k) ==> ValidPick(olds, news, p)
    ensures forall p :: p in Updated(olds, news, k) ==> ValidPick(olds, news, p)
  {
    if k > 0 {
      PicksValidUpTo(olds, news, k - 1);
      ExpectedKeepsName(olds, news, k - 1);
    }
  }

  /** The names of the first k fresh tasks, counted with repetition. */
  function NameBag(news: seq<Definition>, k: nat): multiset<string>
    requires k <= |news|
  {
    if k == 0 then multiset{} else NameBag(news, k - 1) + multiset{news[k - 1].name}
  }

  lemma {:induction false} NameBagIsNames(news: seq<Definition>)
    ensures NameBag(news, |news|) == multiset(Names(news))
  {
    if news != [] {
      var n := |news| - 1;
      NameBagIsNames(news[..n]);
      assert forall k :: 0 <= k <= n ==> NameBag(news[..n], k) == NameBag(news, k) by {
        forall k | 0 <= k <= n
          ensures NameBag(news[..n], k) == NameBag(news, k)
        {
          NameBagPrefix(news, n, k);
        }
      }
    }
  }

  lemma {:induction false} NameBagPrefix(news: seq<Definition>, n: nat, k: nat)
    requires k <= n <= |news|
    ensures NameBag(news[..n], k) == NameBag(news, k)
  {
    if k > 0 {
      NameBagPrefix(news, n, k - 1);
    }
  }

  /** One iteration adds the fresh task's name to the added names or to the updated ones. */
  lemma PickNamesStep(olds: seq<Definition>, news: seq<Definition>, k: nat)
    requires 0 < k <= |news|
    ensures multiset(PickNames(olds, news, Added(olds, news, k))) + multiset(PickNames(olds, news, Updated(olds, news, k)))
      == multiset(PickNames(olds, news, Added(olds, news, k - 1))) + multiset(PickNames(olds, news, Updated(olds, news, k - 1)))
         + multiset{news[k - 1].name}
  {
    ExpectedKeepsName(olds, news, k - 1);
    if news[k - 1].name in Names(olds) {
      KnownNameStep(olds, news, k);
    } else {
      NewNameStep(olds, news, k);
    }
  }

  lemma KnownNameStep(olds: seq<Definition>, news: seq<Definition>, k: nat)
    requires 0 < k <= |news| && news[k - 1].name in Names(olds)
    requires PickName(olds, news, Choice(olds, news, k - 1)) == news[k - 1].name
    ensures Added(olds, news, k) == Added(olds, news, k - 1)
    ensures multiset(PickNames(olds, news, Updated(olds, news, k)))
      == multiset(PickNames(olds, news, Updated(olds, news, k - 1))) + multiset{news[k - 1].name}
  {
    var u0 := Updated(olds, news, k - 1);
    var u := Updated(olds, news, k);
    assert Added(olds, news, k) == Added(olds, news, k - 1) + [];
    assert u == u0 + [Choice(olds, news, k - 1)];
    assert PickNames(olds, news, u) == PickNames(olds, news, u0) + [news[k - 1].name];
  }

  lemma NewNameStep(olds: seq<Definition>, news: seq<Definition>, k: nat)
    requires 0 < k <= |news| && news[k - 1].name !in Names(olds)
    ensures Updated(olds, news, k) == Updated(olds, news, k - 1)
    ensures multiset(PickNames(olds, news, Added(olds, news, k)))
      == multiset(PickNames(olds, news, Added(olds, news, k - 1))) + multiset{news[k - 1].name}
  {
    var a0 := Added(olds, news, k - 1);
    var a := Added(olds, news, k);
    assert Updated(olds, news, k) == Updated(olds, news, k - 1) + [];
    assert a == a0 + [NewTask(k - 1)];
    assert PickNames(olds, news, a) == PickNames(olds, news, a0) + [news[k - 1].name];
  }

  lemma {:induction false} PicksNamesUpTo(olds: seq<Definition>, news: seq<Definition>, k: nat)
    requires k <= |news|
    ensures multiset(PickNames(olds, news, Added(olds, news, k))) + multiset(PickNames(olds, news, Updated(olds, news, k)))
      == NameBag(news, k)
  {
    if k > 0 {
      PickNamesStep(olds, news, k);
      PicksNamesUpTo(olds, news, k - 1);
    }
  }

  /** Every pick names a fresh task, and a cached one where it keeps one. */
  lemma PicksValid(olds: seq<Definition>, news: seq<Definition>)
    ensures forall p :: p in Picks(olds, news) ==> ValidPick(olds, news, p)
  {
    PicksValidUpTo(olds, news, |news|);
  }

  /** The names in the merged list are the fresh names, rearranged: cached tasks whose
      name the fresh list no longer has never reach the result. */
  lemma ResultNamesArePermutation(olds: seq<Definition>, news: seq<Definition>)
    ensures forall p :: p in Picks(olds, news) ==> ValidPick(olds, news, p)
    ensures multiset(PickNames(olds, news, Picks(olds, news))) == multiset(Names(news))
    ensures forall p :: p in Picks(olds, news) && p.OldTask? ==> p.j < |olds| && olds[p.j].name in Names(news)
  {
    PicksValidUpTo(olds, news, |news|);
    PicksNamesUpTo(olds, news, |news|);
    NameBagIsNames(news);
    var a, u := Added(olds, news, |news|), Updated(olds, news, |news|);
    assert PickNames(olds, news, a + u) == PickNames(olds, news, a) + PickNames(olds, news, u);
    PicksAreExpected(olds, news);
    forall p | p in Picks(olds, news) && p.OldTask?
      ensures olds[p.j].name in Names(news)
    {
      ExpectedKeepsName(olds, news, p.i);
    }
  }

  /** `_task` after the first k iterations of the loop: the cached task each equal pick
      keeps takes the fresh task's function. */
  function Refreshed(olds: seq<Definition>, news: seq<Definition>, oldFuncs: seq<Option<Callable>>,
                     newFuncs: seq<Option<Callable>>, k: nat): (r: seq<Option<Callable>>)
    requires |oldFuncs| == |olds| && |newFuncs| == |news| && k <= |news|
    ensures |r| == |olds|
  {
    if k == 0 then oldFuncs
    else
      var r := Refreshed(olds, news, oldFuncs, newFuncs, k - 1);
      var p := Expected(olds, news, k - 1);
      if p.OldTask? then r[p.j := newFuncs[k - 1]] else r
  }

  /** A cached task's function changes only when the task is kept in place of an equal
      fresh task, and then to that task's function; a cached task equal to no fresh task
      keeps its function. */
  lemma {:induction false} RefreshedSpec(olds: seq<Definition>, news: seq<Definition>, oldFuncs: seq<Option<Callable>>,
                                         newFuncs: seq<Option<Callable>>, k: nat, j: nat)
    requires |oldFuncs| == |olds| && |newFuncs| == |news| && k <= |news| && j < |olds|
    ensures Refreshed(olds, news, oldFuncs, newFuncs, k)[j] == oldFuncs[j]
      || exists i :: 0 <= i < k && Expected(olds, news, i) == OldTask(i, j)
           && Refreshed(olds, news, oldFuncs, newFuncs, k)[j] == newFuncs[i]
    ensures (forall i :: 0 <= i < k ==> news[i] != olds[j]) ==> Refreshed(olds, news, oldFuncs, newFuncs, k)[j] == oldFuncs[j]
  {
    if k > 0 {
      RefreshedSpec(olds, news, oldFuncs, newFuncs, k - 1, j);
      ExpectedKeepsName(olds, news, k - 1);
    }
  }

  /** When fresh names are distinct, every cached task the result keeps carries the
      function of the fresh task it stands for. */
  lemma KeptTasksGetFreshFunctions(olds: seq<Definition>, news: seq<Definition>, oldFuncs: seq<Option<Callable>>,
                                   newFuncs: seq<Option<Callable>>, i: nat)
    requires |oldFuncs| == |olds| && |newFuncs| == |news| && i < |news| && Distinct(Names(news))
    requires Expected(olds, news, i).OldTask?
    ensures Expected(olds, news, i).j < |olds|
    ensures Refreshed(olds, news, oldFuncs, newFuncs, |news|)[Expected(olds, news, i).j] == newFuncs[i]
  {
    KeptUntil(olds, news, oldFuncs, newFuncs, i, |news|);
  }

  lemma {:induction false} KeptUntil(olds: seq<Definition>, news: seq<Definition>, oldFuncs: seq<Option<Callable>>,
                                     newFuncs: seq<Option<Callable>>, i: nat, k: nat)
    requires |oldFuncs| == |olds| && |newFuncs| == |news| && i < k <= |news| && Distinct(Names(news))
    requires Expected(olds, news, i).OldTask?
    ensures Expected(olds, news, i).j < |olds|
    ensures Refreshed(olds, news, oldFuncs, newFuncs, k)[Expected(olds, news, i).j] == newFuncs[i]
  {
    ExpectedKeepsName(olds, news, i);
    if k - 1 > i {
      KeptUntil(olds, news, oldFuncs, newFuncs, i, k - 1);
      ExpectedKeepsName(olds, news, k - 1);
      var p := Expected(olds, news, k - 1);
      if p.OldTask? {
        assert Names(news)[i] != Names(news)[k - 1];
      }
    }
  }

  /** `[task for task in olds if task.name in news_name]`, as the positions of the cached
      tasks it keeps, from position `from` on. */
  function Kept(olds: seq<Definition>, names: seq<string>, from: nat): (r: seq<nat>)
    requires from <= |olds|
    ensures forall m :: 0 <= m < |r| ==> r[m] < |olds|
    decreases |olds| - from
  {
    if from == |olds| then []
    else (if olds[from].name in names then [from] else []) + Kept(olds, names, from + 1)
  }

  /** `next(t for t in kept if t.name == name)`: the first kept task of that name. */
  function NextNamed(olds: seq<Definition>, kept: seq<nat>, name: string): (r: Option<nat>)
    requires forall m :: 0 <= m < |kept| ==> kept[m] < |olds|
  {
    if kept == [] then None
    else if olds[kept[0]].name == name then Some(kept[0])
    else NextNamed(olds, kept[1..], name)
  }

  /** One step of the search: the kept list starts with the cached task at `from` when
      its name is a fresh one. */
  lemma KeptStep(olds: seq<Definition>, names: seq<string>, name: string, from: nat)
    requires from < |olds|
    ensures NextNamed(olds, Kept(olds, names, from), name) ==
      if olds[from].name in names && olds[from].name == name then Some(from)
      else NextNamed(olds, Kept(olds, names, from + 1), name)
  {
    var ks := Kept(olds, names, from);
    if olds[from].name in names {
      assert ks == [from] + Kept(olds, names, from + 1);
      assert ks[1..] == Kept(olds, names, from + 1);
    } else {
      assert ks == [] + Kept(olds, names, from + 1);
      assert ks == Kept(olds, names, from + 1);
    }
  }

  /** For a name the fresh list has, the search through the kept tasks finds the first
      cached task of that name, as if the cache had not been filtered. */
  lemma {:induction false} NextNamedIsFirst(olds: seq<Definition>, names: seq<string>, name: string, from: nat)
    requires name in names && name in Names(olds)
    requires from <= FirstIndex(Names(olds), name).value
    ensures NextNamed(olds, Kept(olds, names, from), name) == FirstIndex(Names(olds), name)
    decreases |olds| - from
  {
    var f := FirstIndex(Names(olds), name).value;
    assert FirstIndex(Names(olds), name) == Some(f);
    KeptStep(olds, names, name, from);
    if from < f {
      NextNamedIsFirst(olds, names, name, from + 1);
      assert olds[from].name != name by {
        assert Names(olds)[from] != name;
      }
    } else {
      assert olds[from].name == name by {
        assert Names(olds)[from] == name;
      }
    }
  }

  /** `task.name not in added_names` holds exactly when the cache knows the name. */
  lemma AddedNamesIff(olds: seq<Definition>, news: seq<Definition>, i: nat)
    requires i < |news|
    ensures news[i].name in PickNames(olds, news, Added(olds, news, |news|)) <==> news[i].name !in Names(olds)
  {
    AddedNamesUnknown(olds, news, news[i].name);
    AddedNameListed(olds, news, i);
  }

  lemma AddedNamesUnknown(olds: seq<Definition>, news: seq<Definition>, name: string)
    ensures name in PickNames(olds, news, Added(olds, news, |news|)) ==> name !in Names(olds)
  {
    var a := Added(olds, news, |news|);
    if name in PickNames(olds, news, a) {
      var m :| 0 <= m < |a| && PickNames(olds, news, a)[m] == name;
      AddedSpec(olds, news, |news|);
      assert PickName(olds, news, a[m]) == name;
    }
  }

  lemma AddedNameListed(olds: seq<Definition>, news: seq<Definition>, i: nat)
    requires i < |news|
    ensures news[i].name !in Names(olds) ==> news[i].name in PickNames(olds, news, Added(olds, news, |news|))
  {
    if news[i].name !in Names(olds) {
      AddedSpec(olds, news, |news|);
      var a := Added(olds, news, |news|);
      var m :| 0 <= m < |a| && a[m] == NewTask(i);
      assert PickNames(olds, news, a)[m] == news[i].name;
    }
  }

  /** The definitions of a list of tasks. */
  function Defs(ts: seq<Task>): (r: seq<Definition>)
    reads ts`dependsOn, ts`runsOn, ts`retry, ts`ttlMinutes, ts`name
    ensures |r| == |ts| && forall j :: 0 <= j < |ts| ==> r[j] == ts[j].Def()
  {
    if ts == [] then [] else Defs(ts[..|ts| - 1]) + [ts[|ts| - 1].Def()]
  }

  /** The `_task` fields of a list of tasks. */
  function Funcs(ts: seq<Task>): (r: seq<Option<Callable>>)
    reads ts`task
    ensures |r| == |ts| && forall j :: 0 <= j < |ts| ==> r[j] == ts[j].task
  {
    if ts == [] then [] else Funcs(ts[..|ts| - 1]) + [ts[|ts| - 1].task]
  }

  /** The task objects the picks put in the result. */
  function Realize(olds: seq<Task>, news: seq<Task>, ps: seq<Pick>): (r: seq<Task>)
    requires forall p :: p in ps ==> p.i < |news| && (p.OldTask? ==> p.j < |olds|)
    ensures |r| == |ps|
  {
    if ps == [] then []
    else
      var p := ps[|ps| - 1];
      Realize(olds, news, ps[..|ps| - 1]) + [if p.NewTask? then news[p.i] else olds[p.j]]
  }

  /** `compare_tasks(olds, news)`: the result is the merge the picks describe, and every
      cached task kept in place of an equal fresh one has taken that task's function;
      the definitions and the fresh tasks' functions are untouched. */
  method CompareTasks(olds: seq<Task>, news: seq<Task>) returns (r: seq<Task>)
    requires Distinct(olds) && forall t :: t in olds ==> t !in news
    modifies olds`task
    ensures unchanged(olds`dependsOn, olds`runsOn, olds`retry, olds`ttlMinutes, olds`name)
    ensures forall p :: p in Picks(old(Defs(olds)), old(Defs(news))) ==> p.i < |news| && (p.OldTask? ==> p.j < |olds|)
    ensures r == Realize(olds, news, Picks(old(Defs(olds)), old(Defs(news))))
    ensures Funcs(olds) == Refreshed(old(Defs(olds)), old(Defs(news)), old(Funcs(olds)), old(Funcs(news)), |news|)
    ensures Funcs(news) == old(Funcs(news))
  {
    var od, nd := Defs(olds), Defs(news);
    var newsName := Names(nd);
    var kept := Kept(od, newsName, 0);
    var addedPicks := Added(od, nd, |nd|);
    PicksValidUpTo(od, nd, |nd|);
    var added := Realize(olds, news, addedPicks);
    var addedNames := PickNames(od, nd, addedPicks);
    LookupsHold(od, nd);
    var updated := UpdateLoop(olds, news, od, nd, kept, addedNames);
    r := added + updated;
    assert Picks(od, nd) == addedPicks + Updated(od, nd, |nd|);
    RealizeConcat(olds, news, addedPicks, Updated(od, nd, |nd|));
  }

  /** What the loop of `compare_tasks` knows about names before it starts: the kept
      positions are positions of cached tasks, the added names are exactly the fresh names
      the cache does not know, and the search over the kept positions finds the first
      cached task of a known name. */
  ghost predicate Lookups(od: seq<Definition>, nd: seq<Definition>, kept: seq<nat>, addedNames: seq<string>) {
    && (forall m :: 0 <= m < |kept| ==> kept[m] < |od|)
    && (forall i :: 0 <= i < |nd| ==> (nd[i].name in addedNames <==> nd[i].name !in Names(od)))
    && (forall i :: 0 <= i < |nd| && nd[i].name in Names(od) ==>
         NextNamed(od, kept, nd[i].name) == FirstIndex(Names(od), nd[i].name))
  }

  /** After the first i fresh tasks, `updated` holds the tasks their picks name. */
  ghost predicate Realized(olds: seq<Task>, news: seq<Task>, od: seq<Definition>, nd: seq<Definition>,
                           i: nat, updated: seq<Task>)
    requires i <= |nd|
  {
    && (forall p :: p in Updated(od, nd, i) ==> p.i < |news| && (p.OldTask? ==> p.j < |olds|))
    && updated == Realize(olds, news, Updated(od, nd, i))
  }

  /** After the first i fresh tasks, the cached tasks hold the functions refreshed so far
      and the fresh tasks their own. */
  ghost predicate Functions(olds: seq<Task>, news: seq<Task>, od: seq<Definition>, nd: seq<Definition>,
                            of: seq<Option<Callable>>, nf: seq<Option<Callable>>, i: nat)
    reads olds`task, news`task
    requires |of| == |od| && |nf| == |nd| && i <= |nd|
  {
    Funcs(news) == nf && Funcs(olds) == Refreshed(od, nd, of, nf, i)
  }

  /** The filter and the added names of `compare_tasks` give the loop what it needs. */
  lemma LookupsHold(od: seq<Definition>, nd: seq<Definition>)
    ensures Lookups(od, nd, Kept(od, Names(nd), 0), PickNames(od, nd, Added(od, nd, |nd|)))
  {
    var kept := Kept(od, Names(nd), 0);
    forall i | 0 <= i < |nd|
      ensures nd[i].name in PickNames(od, nd, Added(od, nd, |nd|)) <==> nd[i].name !in Names(od)
      ensures nd[i].name in Names(od) ==> NextNamed(od, kept, nd[i].name) == FirstIndex(Names(od), nd[i].name)
    {
      AddedNamesIff(od, nd, i);
      if nd[i].name in Names(od) {
        NextNamedIsFirst(od, Names(nd), nd[i].name, 0);
      }
    }
  }

  /** The `for task in news` loop of `compare_tasks`, given the cached and fresh
      definitions, the positions the filter kept and the added names. The loop only
      rebinds `_task`, so `old_task != Task(task)` and `task.name` are read from the
      definitions taken before it starts. */
  method UpdateLoop(olds: seq<Task>, news: seq<Task>, od: seq<Definition>, nd: seq<Definition>,
                    kept: seq<nat>, addedNames: seq<string>) returns (updated: seq<Task>)
    requires Distinct(olds) && forall t :: t in olds ==> t !in news
    requires |od| == |olds| && |nd| == |news|
    requires Lookups(od, nd, kept, addedNames)
    modifies olds`task
    ensures forall p :: p in Updated(od, nd, |nd|) ==> p.i < |news| && (p.OldTask? ==> p.j < |olds|)
    ensures updated == Realize(olds, news, Updated(od, nd, |nd|))
    ensures Funcs(olds) == Refreshed(od, nd, old(Funcs(olds)), old(Funcs(news)), |news|)
    ensures Funcs(news) == old(Funcs(news))
  {
    ghost var of, nf := Funcs(olds), Funcs(news);
    updated := [];
    for i := 0 to |news|
      invariant Realized(olds, news, od, nd, i, updated)
      invariant Functions(olds, news, od, nd, of, nf, i)
    {
      updated := Iteration(olds, news, od, nd, kept, addedNames, of, nf, i, updated);
    }
  }

  /** One turn of the loop: a fresh task whose name is among the added names is skipped;
      otherwise the first cached task of that name is looked up in the kept positions. */
  method Iteration(olds: seq<Task>, news: seq<Task>, od: seq<Definition>, nd: seq<Definition>,
                   kept: seq<nat>, addedNames: seq<string>,
                   ghost of: seq<Option<Callable>>, ghost nf: seq<Option<Callable>>,
                   i: nat, updated: seq<Task>) returns (updated': seq<Task>)
    requires Distinct(olds) && forall t :: t in olds ==> t !in news
    requires |od| == |olds| == |of| && |nd| == |news| == |nf| && i < |news|
    requires Lookups(od, nd, kept, addedNames)
    requires Realized(olds, news, od, nd, i, updated)
    requires Functions(olds, news, od, nd, of, nf, i)
    modifies olds`task
    ensures Realized(olds, news, od, nd, i + 1, updated')
    ensures Functions(olds, news, od, nd, of, nf, i + 1)
  {
    if nd[i].name !in addedNames {
      var j := NextNamed(od, kept, nd[i].name).value;
      updated' := KnownIteration(olds, news, od, nd, of, nf, i, j, updated);
    } else {
      UnknownStep(od, nd, of, nf, i);
      updated' := updated;
    }
  }

  /** The body of the loop for a fresh task whose name the cache knows, with j the first
      cached task of that name: an unequal cached task is replaced by the fresh one; an
      equal one takes the fresh function and is kept. */
  method KnownIteration(olds: seq<Task>, news: seq<Task>, od: seq<Definition>, nd: seq<Definition>,
                        ghost of: seq<Option<Callable>>, ghost nf: seq<Option<Callable>>,
                        i: nat, j: nat, updated: seq<Task>) returns (updated': seq<Task>)
    requires Distinct(olds) && forall t :: t in olds ==> t !in news
    requires |od| == |olds| == |of| && |nd| == |news| == |nf| && i < |news|
    requires j < |olds|
    requires nd[i].name in Names(od) && FirstIndex(Names(od), nd[i].name) == Some(j)
    requires forall k :: 0 <= k < |news| ==> news[k].task == nf[k]
    requires forall p :: p in Updated(od, nd, i) ==> p.i < |news| && (p.OldTask? ==> p.j < |olds|)
    requires updated == Realize(olds, news, Updated(od, nd, i))
    requires forall m :: 0 <= m < |olds| ==> olds[m].task == Refreshed(od, nd, of, nf, i)[m]
    modifies olds`task
    ensures forall k :: 0 <= k < |news| ==> news[k].task == nf[k]
    ensures forall p :: p in Updated(od, nd, i + 1) ==> p.i < |news| && (p.OldTask? ==> p.j < |olds|)
    ensures updated' == Realize(olds, news, Updated(od, nd, i + 1))
    ensures forall m :: 0 <= m < |olds| ==> olds[m].task == Refreshed(od, nd, of, nf, i + 1)[m]
  {
    var task := news[i];
    var oldTask := olds[j];
    KnownStep(od, nd, of, nf, i, j);
    if od[j] != nd[i] {
      RealizeSnoc(olds, news, Updated(od, nd, i), NewTask(i));
      updated' := updated + [task];
    } else {
      ghost var before := Refreshed(od, nd, of, nf, i);
      RealizeSnoc(olds, news, Updated(od, nd, i), OldTask(i, j));
      assert forall k :: 0 <= k < |news| ==> news[k] != oldTask by {
        assert oldTask in olds;
      }
      assert forall m :: 0 <= m < |olds| && m != j ==> olds[m] != oldTask;
      oldTask.task := task.task;
      updated' := updated + [oldTask];
      forall m | 0 <= m < |olds|
        ensures olds[m].task == before[j := nf[i]][m]
      {
        if m != j {
          assert olds[m].task == before[m];
        }
      }
    }
  }

  /** An iteration for a fresh task whose name the cache knows, with j the first cached
      task of that name: it adds the fresh task when the two differ, and otherwise the
      cached task, which takes the fresh function. */
  lemma KnownStep(olds: seq<Definition>, news: seq<Definition>, oldFuncs: seq<Option<Callable>>,
                  newFuncs: seq<Option<Callable>>, i: nat, j: nat)
    requires |oldFuncs| == |olds| && |newFuncs| == |news| && i < |news|
    requires news[i].name in Names(olds) && FirstIndex(Names(olds), news[i].name) == Some(j)
    requires forall p :: p in Updated(olds, news, i) ==> ValidPick(olds, news, p)
    ensures j < |olds|
    ensures Updated(olds, news, i + 1) == Updated(olds, news, i) + [if olds[j] != news[i] then NewTask(i) else OldTask(i, j)]
    ensures forall p :: p in Updated(olds, news, i + 1) ==> ValidPick(olds, news, p)
    ensures Refreshed(olds, news, oldFuncs, newFuncs, i + 1) ==
      if olds[j] != news[i] then Refreshed(olds, news, oldFuncs, newFuncs, i)
      else Refreshed(olds, news, oldFuncs, newFuncs, i)[j := newFuncs[i]]
  {
  }

  /** An iteration for a fresh task whose name the cache does not know changes nothing. */
  lemma UnknownStep(olds: seq<Definition>, news: seq<Definition>, oldFuncs: seq<Option<Callable>>,
                    newFuncs: seq<Option<Callable>>, i: nat)
    requires |oldFuncs| == |olds| && |newFuncs| == |news| && i < |news| && news[i].name !in Names(olds)
    ensures Updated(olds, news, i + 1) == Updated(olds, news, i)
    ensures Refreshed(olds, news, oldFuncs, newFuncs, i + 1) == Refreshed(olds, news, oldFuncs, newFuncs, i)
  {
    assert Updated(olds, news, i + 1) == Updated(olds, news, i) + [];
  }

  lemma RealizeSnoc(olds: seq<Task>, news: seq<Task>, ps: seq<Pick>, p: Pick)
    requires forall q :: q in ps ==> q.i < |news| && (q.OldTask? ==> q.j < |olds|)
    requires p.i < |news| && (p.OldTask? ==> p.j < |olds|)
    ensures forall q :: q in ps + [p] ==> q.i < |news| && (q.OldTask? ==> q.j < |olds|)
    ensures Realize(olds, news, ps + [p]) == Realize(olds, news, ps) + [if p.NewTask? then news[p.i] else olds[p.j]]
  {
    assert (ps + [p])[..|ps|] == ps;
  }

  lemma {:induction false} RealizeConcat(olds: seq<Task>, news: seq<Task>, a: seq<Pick>, b: seq<Pick>)
    requires forall p :: p in a + b ==> p.i < |news| && (p.OldTask? ==> p.j < |olds|)
    ensures Realize(olds, news, a + b) == Realize(olds, news, a) + Realize(olds, news, b)
    decreases |b|
  {
    if b == [] {
      assert a + b == a;
    } else {
      var b' := b[..|b| - 1];
      assert (a + b)[..|a + b| - 1] == a + b';
      RealizeConcat(olds, news, a, b');
    }
  }

  // ------------------------------------------------------------------ the workflow

  /** What the DAG reads from the tasks: their names and dependencies. */
  function Views(ts: seq<Task>): (r: seq<TaskView>)
    reads ts`name, ts`dependsOn
    ensures |r| == |ts| && forall i :: 0 <= i < |ts| ==> r[i] == TaskView(ts[i].name, ts[i].dependsOn, Pending)
  {
    if ts == [] then [] else Views(ts[..|ts| - 1]) + [TaskView(ts[|ts| - 1].name, ts[|ts| - 1].dependsOn, Pending)]
  }

  /** `file_path` of `__post_init__`: the base directory joined to the latest artifact, or,
      when there is none, to `f"{self._base_dir}/{self.artifact_name}.pkl"`, so that the
      base directory then appears twice. */
  function CachePath(baseDir: string, artifactName: string, latest: Option<string>): string {
    var artifactFile := if latest.Some? && latest.value != "" then latest.value else baseDir + "/" + artifactName + ".pkl";
    baseDir + "/" + artifactFile
  }

  /** The list `compare_tasks` returns, given the definitions its tasks had on entry. */
  function Merge(olds: seq<Task>, news: seq<Task>, od: seq<Definition>, nd: seq<Definition>): seq<Task>
    requires |od| == |olds| && |nd| == |news|
  {
    PicksValid(od, nd);
    Realize(olds, news, Picks(od, nd))
  }

  /** Views depend only on names and dependencies. */
  twostate lemma ViewsKept(ts: seq<Task>)
    requires forall i :: 0 <= i < |ts| ==> old(ts[i].name) == ts[i].name && old(ts[i].dependsOn) == ts[i].dependsOn
    ensures Views(ts) == old(Views(ts))
  {
  }

  /** The task list `__post_init__` leaves: the merge when it merges, else the registered
      tasks. */
  function PostInitTasks(registered: seq<Task>, artifact: seq<Task>, merging: bool): seq<Task>
    reads artifact`dependsOn, artifact`runsOn, artifact`retry, artifact`ttlMinutes, artifact`name
    reads registered`dependsOn, registered`runsOn, registered`retry, registered`ttlMinutes, registered`name
  {
    if merging then Merge(artifact, registered, Defs(artifact), Defs(registered)) else registered
  }

  /**
   * The loop of `run`: every level but 0 hands its batch to the executor, and
   * each pass dumps the workflow to `path` when the cache is in use. The executor is
   * taken to run every task of the batch once and return, which holds only when no
   * task's `run` raises and no task is an `AsyncTask`.
   */
  method ExecuteLevels(d: LevelDict, tasks: seq<Task>, dumping: bool, path: string)
    returns (runs: seq<LevelRun<Task>>, dumps: seq<string>)
    ensures runs == Plan(d, tasks, |d|)
    ensures |dumps| == (if dumping then |runs| else 0)
    ensures forall i :: 0 <= i < |dumps| ==> dumps[i] == path
  {
    runs := [];
    dumps := [];
    var k := 0;
    while k < |d|
      invariant 0 <= k <= |d|
      invariant runs == Plan(d, tasks, k)
      invariant |dumps| == (if dumping then |runs| else 0)
      invariant forall i :: 0 <= i < |dumps| ==> dumps[i] == path
    {
      var (level, ids) := d[k];
      if level != 0 {
        var batch := SelectBatch(tasks, ids);
        runs := runs + [LevelRun(level, batch, |batch|)];
        if dumping {
          dumps := dumps + [path];
        }
      }
      k := k + 1;
    }
  }

  class Workflow {
    /** `self.tasks`: the class-level registry, or the merge with the cached tasks. */
    const tasks: seq<Task>
    const dag: PydbtDag.Dag
    const artifactName: string
    const useCache: bool
    /** Whether a cache class was given (`cache_strategy` is truthy). */
    const cacheStrategy: bool
    const baseDir: string
    /** The path the cache class was opened on, when the cache is in use. */
    const cachePath: Option<string>

    constructor Init(tasks: seq<Task>, dag: PydbtDag.Dag, artifactName: string, useCache: bool,
                     cacheStrategy: bool, baseDir: string, cachePath: Option<string>)
      ensures this.tasks == tasks && this.dag == dag && this.artifactName == artifactName
      ensures this.useCache == useCache && this.cacheStrategy == cacheStrategy
      ensures this.baseDir == baseDir && this.cachePath == cachePath
    {
      this.tasks := tasks;
      this.dag := dag;
      this.artifactName := artifactName;
      this.useCache := useCache;
      this.cacheStrategy := cacheStrategy;
      this.baseDir := baseDir;
      this.cachePath := cachePath;
    }

    /** `Workflow(...)` with its `__post_init__`. `listing` is what `os.listdir` returns for
        the base directory and `artifact` the task list the cache class loads from
        `cachePath` (empty when it has none). The latest artifact is looked up first, and
        its exception escapes whatever the cache settings; with a cache class and
        `use_cache`, a non-empty artifact is merged with the registered tasks by
        `compare_tasks`; finally the DAG is built from the tasks, and its ValueError
        escapes. */
    static method Create(registry: TaskList, artifactName: string, useCache: bool, cacheStrategy: bool,
                         baseDir: string, listing: seq<string>, artifact: seq<Task>) returns (r: Result<Workflow>)
      requires Distinct(artifact) && forall t :: t in artifact ==> t !in registry.items
      modifies artifact`task
      ensures GetLatestRunTasks(listing).Raised? ==>
        r == Raised(GetLatestRunTasks(listing).exc) && Funcs(artifact) == old(Funcs(artifact))
      ensures var merging := GetLatestRunTasks(listing).Ok? && cacheStrategy && useCache && |artifact| > 0;
        && (merging ==> Funcs(artifact) == Refreshed(old(Defs(artifact)), old(Defs(registry.items)),
              old(Funcs(artifact)), old(Funcs(registry.items)), |old(registry.items)|))
        && (!merging ==> Funcs(artifact) == old(Funcs(artifact)))
      ensures GetLatestRunTasks(listing).Ok? ==>
        var merging := cacheStrategy && useCache && |artifact| > 0;
        var ts := old(PostInitTasks(registry.items, artifact, merging));
        var views := old(Views(PostInitTasks(registry.items, artifact, merging)));
        && (r.Raised? <==> PydbtDag.Built(views).Raised?)
        && (r.Raised? ==> r.exc == ValueError)
        && (r.Ok? ==> (fresh(r.value) && r.value.tasks == ts
              && r.value.dag.tasks == views && r.value.dag.graph == PydbtDag.Built(views).value
              && r.value.artifactName == artifactName && r.value.useCache == useCache
              && r.value.cacheStrategy == cacheStrategy && r.value.baseDir == baseDir
              && r.value.cachePath == if cacheStrategy && useCache
                then Some(CachePath(baseDir, artifactName, GetLatestRunTasks(listing).value)) else None))
    {
      var latest := GetLatestRunTasks(listing);
      if latest.Raised? {
        return Raised(latest.exc);
      }
      var cachePath := if cacheStrategy && useCache then Some(CachePath(baseDir, artifactName, latest.value)) else None;
      var tasks := CachedTasks(registry.items, artifact, cacheStrategy && useCache);
      r := Assemble(tasks, Views(tasks), artifactName, useCache, cacheStrategy, baseDir, cachePath);
    }

    /** `self.dag = Dag(self.tasks)`, whose ValueError escapes, and the finished object. */
    static method Assemble(tasks: seq<Task>, views: seq<TaskView>, artifactName: string, useCache: bool,
                           cacheStrategy: bool, baseDir: string, cachePath: Option<string>) returns (r: Result<Workflow>)
      ensures r.Raised? <==> PydbtDag.Built(views).Raised?
      ensures r.Raised? ==> r.exc == ValueError
      ensures r.Ok? ==> (fresh(r.value) && r.value.tasks == tasks
        && r.value.dag.tasks == views && r.value.dag.graph == PydbtDag.Built(views).value
        && r.value.artifactName == artifactName && r.value.useCache == useCache
        && r.value.cacheStrategy == cacheStrategy && r.value.baseDir == baseDir && r.value.cachePath == cachePath)
    {
      var dag := PydbtDag.Dag.Create(views);
      if dag.Raised? {
        return Raised(dag.exc);
      }
      var w := new Workflow.Init(tasks, dag.value, artifactName, useCache, cacheStrategy, baseDir, cachePath);
      return Ok(w);
    }

    /** The tasks `__post_init__` leaves in `self.tasks`: with the cache in use and a
        non-empty artifact, the merge `compare_tasks` returns; otherwise the registered
        tasks. */
    static method CachedTasks(registered: seq<Task>, artifact: seq<Task>, cacheInUse: bool) returns (tasks: seq<Task>)
      requires Distinct(artifact) && forall t :: t in artifact ==> t !in registered
      modifies artifact`task
      ensures tasks == old(PostInitTasks(registered, artifact, cacheInUse && |artifact| > 0))
      ensures Views(tasks) == old(Views(PostInitTasks(registered, artifact, cacheInUse && |artifact| > 0)))
      ensures cacheInUse && |artifact| > 0 ==> Funcs(artifact) == Refreshed(old(Defs(artifact)),
        old(Defs(registered)), old(Funcs(artifact)), old(Funcs(registered)), |registered|)
      ensures !(cacheInUse && |artifact| > 0) ==> Funcs(artifact) == old(Funcs(artifact))
    {
      tasks := registered;
      if cacheInUse && |artifact| > 0 {
        tasks := CompareTasks(artifact, registered);
      }
      ViewsKept(tasks);
    }

    /** `run`: the levels of the DAG (whose NetworkXError escapes), then, for every item
        of the level dict other than level 0 and in its order, one executor run over the
        tasks whose position is listed, with one worker per task, followed, when the
        cache is in use, by a dump of the whole task list to the artifact path. */
    method Run() returns (r: Result<seq<LevelRun<Task>>>, dumps: seq<string>)
      modifies dag
      ensures dag.graph == old(dag.graph)
      ensures r.Raised? <==> LevelsFor(dag.graph, None).Raised?
      ensures r.Raised? ==> r.exc == LevelsFor(dag.graph, None).exc && dumps == []
      ensures r.Ok? ==> var levels := LevelsFor(dag.graph, None).value;
        r.value == Plan(levels, tasks, |levels|)
        && |dumps| == (if cacheStrategy && useCache then |r.value| else 0)
        && forall i :: 0 <= i < |dumps| ==> dumps[i] == DumpPath(baseDir, artifactName)
    {
      var levels := dag.Levels();
      if levels.Raised? {
        return Raised(levels.exc), [];
      }
      var runs;
      runs, dumps := ExecuteLevels(levels.value, tasks, cacheStrategy && useCache, DumpPath(baseDir, artifactName));
      return Ok(runs), dumps;
    }
  }
}
