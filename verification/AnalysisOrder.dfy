/** What the tasks of an analysis add to the statistics, in whatever order they are
    run (gnubg/analysis.c, lines 914 to 930 and 953 to 989). */
module AnalysisOrder {
  import opened Common
  import opened MatchStates
  import opened Linking
  import opened AnalyzeGame
  import Statistics
  import StatisticsMatch

  /** The jobs of these records, each in its own state. */
  function JobsOf<E>(r: Rules<E>, ms0: MatchState<E>, game: seq<Record>, records: seq<nat>): seq<Job<E>>
    requires Below(records, |game|)
  {
    if records == [] then []
    else
      assert Below(records[1..], |game|);
      [JobAt(r, ms0, game, records[0])] + JobsOf(r, ms0, game, records[1..])
  }

  lemma {:induction false} JobsConcat<E>(r: Rules<E>, ms0: MatchState<E>, game: seq<Record>,
                                            a: seq<nat>, b: seq<nat>)
    requires Below(a, |game|) && Below(b, |game|) && Below(a + b, |game|)
    ensures JobsOf(r, ms0, game, a + b) == JobsOf(r, ms0, game, a) + JobsOf(r, ms0, game, b)
  {
    if a == [] {
      assert a + b == b;
    } else {
      assert (a + b)[1..] == a[1..] + b;
      JobsConcat(r, ms0, game, a[1..], b);
    }
  }

  lemma {:induction false} OrderBelow(kinds: seq<Kind>, k: nat, n: nat)
    requires k <= |kinds| && k <= n
    ensures Below(Order(kinds, k), n)
  {
    InOrder(kinds, k);
  }

  lemma TaskIsPair<E>(r: Rules<E>, ms0: MatchState<E>, game: seq<Record>, k: nat)
    requires k < |game|
    ensures Below(Pair(Kinds(r, ms0, game), k), |game|)
    ensures TaskAt(r, ms0, game, k) == JobsOf(r, ms0, game, Pair(Kinds(r, ms0, game), k))
  {
    match DoubleBefore(Kinds(r, ms0, game), k)
    case None =>
      OneJob(r, ms0, game, k);
    case Some(j) =>
      JobsConcat(r, ms0, game, [j], [k]);
      OneJob(r, ms0, game, j);
      OneJob(r, ms0, game, k);
  }

  lemma OneJob<E>(r: Rules<E>, ms0: MatchState<E>, game: seq<Record>, k: nat)
    requires k < |game|
    ensures JobsOf(r, ms0, game, [k]) == [JobAt(r, ms0, game, k)]
  {
    assert [k][1..] == [];
  }

  /** One task after the other, in the order of submission, the jobs are those of
      the records that are analysed, in order. */
  lemma {:induction false} JobsInOrder<E>(r: Rules<E>, ms0: MatchState<E>, game: seq<Record>, k: nat)
    requires k <= |game|
    ensures Below(Order(Kinds(r, ms0, game), k), |game|)
    ensures StatisticsMatch.Joined(Tasks(r, ms0, game, k)) == JobsOf(r, ms0, game, Order(Kinds(r, ms0, game), k))
  {
    OrderBelow(Kinds(r, ms0, game), k, |game|);
    if k > 0 {
      JobsInOrder(r, ms0, game, k - 1);
      if Kinds(r, ms0, game)[k - 1] == Other {
        JobsNext(r, ms0, game, k - 1);
      }
    }
  }

  lemma JobsNext<E>(r: Rules<E>, ms0: MatchState<E>, game: seq<Record>, k: nat)
    requires k < |game| && Kinds(r, ms0, game)[k] == Other
    requires Below(Order(Kinds(r, ms0, game), k), |game|) && Below(Order(Kinds(r, ms0, game), k + 1), |game|)
    requires StatisticsMatch.Joined(Tasks(r, ms0, game, k)) == JobsOf(r, ms0, game, Order(Kinds(r, ms0, game), k))
    ensures StatisticsMatch.Joined(Tasks(r, ms0, game, k + 1)) == JobsOf(r, ms0, game, Order(Kinds(r, ms0, game), k + 1))
  {
    var tasks, task := Tasks(r, ms0, game, k), TaskAt(r, ms0, game, k);
    TaskIsPair(r, ms0, game, k);
    JobsConcat(r, ms0, game, Order(Kinds(r, ms0, game), k), Pair(Kinds(r, ms0, game), k));
    StatisticsMatch.JoinedConcat(tasks, [task]);
    JoinedOne(task);
  }

  lemma JoinedOne<T>(task: seq<T>)
    ensures StatisticsMatch.Joined([task]) == task
  {
    var one := [task];
    assert one[1..] == [] && StatisticsMatch.Joined(one) == one[0] + StatisticsMatch.Joined(one[1..]);
  }

  // ----- What the jobs add

  /** The records that the statistics see, after each job's analysis f. */
  function Analyses<E>(f: Job<E> -> Statistics.Step, jobs: seq<Job<E>>): (xs: seq<Statistics.Step>)
    ensures |xs| == |jobs|
  {
    if jobs == [] then [] else [f(jobs[0])] + Analyses(f, jobs[1..])
  }

  lemma {:induction false} AnalysesConcat<E>(f: Job<E> -> Statistics.Step, a: seq<Job<E>>, b: seq<Job<E>>)
    ensures Analyses(f, a + b) == Analyses(f, a) + Analyses(f, b)
  {
    if a == [] {
      assert a + b == b;
    } else {
      assert (a + b)[1..] == a[1..] + b;
      AnalysesConcat(f, a[1..], b);
    }
  }

  lemma {:induction false} AnalysesPermuted<E>(f: Job<E> -> Statistics.Step, a: seq<Job<E>>, b: seq<Job<E>>)
    requires multiset(a) == multiset(b)
    ensures multiset(Analyses(f, a)) == multiset(Analyses(f, b))
    decreases |a|
  {
    if a == [] {
      assert |b| == |multiset(b)| == 0;
    } else {
      var c, d := StatisticsMatch.FindFirst(a, b);
      AnalysesPermuted(f, a[1..], c + d);
      AnalysesConcat(f, c, d);
      AnalysesConcat(f, c + [a[0]], d);
      AnalysesConcat(f, c, [a[0]]);
      assert [a[0]][1..] == [];
    }
  }

  lemma {:induction false} CountedConcat(g: Statistics.Settings, walk: Walk,
                                         a: seq<Statistics.Step>, b: seq<Statistics.Step>)
    ensures Statistics.Counted(g, walk, a + b) == Statistics.Counted(g, walk, a) + Statistics.Counted(g, walk, b)
    decreases |b|
  {
    if b == [] {
      assert a + b == a;
    } else {
      var n := |b| - 1;
      assert (a + b)[..|a + b| - 1] == a + b[..n] && (a + b)[|a + b| - 1] == b[n];
      CountedConcat(g, walk, a, b[..n]);
    }
  }

  lemma CountedAround(g: Statistics.Settings, walk: Walk,
                      a: seq<Statistics.Step>, x: Statistics.Step, b: seq<Statistics.Step>)
    ensures multiset(Statistics.Counted(g, walk, a + [x] + b))
         == multiset(Statistics.Counted(g, walk, [x])) + multiset(Statistics.Counted(g, walk, a + b))
  {
    CountedConcat(g, walk, a + [x], b);
    CountedConcat(g, walk, a, [x]);
    CountedConcat(g, walk, a, b);
  }

  lemma {:induction false} CountedPermuted(g: Statistics.Settings, walk: Walk,
                                           a: seq<Statistics.Step>, b: seq<Statistics.Step>)
    requires multiset(a) == multiset(b)
    ensures multiset(Statistics.Counted(g, walk, a)) == multiset(Statistics.Counted(g, walk, b))
    decreases |a|
  {
    if a == [] {
      assert |b| == |multiset(b)| == 0;
    } else {
      var c, d := StatisticsMatch.FindFirst(a, b);
      CountedPermuted(g, walk, a[1..], c + d);
      CountedAround(g, walk, c, a[0], d);
      assert a == [a[0]] + a[1..];
      CountedConcat(g, walk, [a[0]], a[1..]);
    }
  }

  /** Whatever order the workers run the tasks in, the statistics are those of the
      analysed records in the order of the list, each analysed in the state that the
      records before it lead to. */
  lemma AnyOrder<E>(g: Statistics.Settings, s: Statistics.Sides, f: Job<E> -> Statistics.Step,
                    r: Rules<E>, ms0: MatchState<E>, game: seq<Record>, run: seq<seq<Job<E>>>)
    requires multiset(run) == multiset(Tasks(r, ms0, game, |game|))
    ensures Below(Order(Kinds(r, ms0, game), |game|), |game|)
    ensures var jobs := JobsOf(r, ms0, game, Order(Kinds(r, ms0, game), |game|));
            Gathered(g, s, Analyses(f, StatisticsMatch.Joined(run))) == Gathered(g, s, Analyses(f, jobs))
  {
    var tasks := Tasks(r, ms0, game, |game|);
    var xs, ys := Analyses(f, StatisticsMatch.Joined(run)), Analyses(f, StatisticsMatch.Joined(tasks));
    JobsInOrder(r, ms0, game, |game|);
    StatisticsMatch.JoinedPermuted(run, tasks);
    AnalysesPermuted(f, StatisticsMatch.Joined(run), StatisticsMatch.Joined(tasks));
    CountedPermuted(g, Analysis, xs, ys);
    StatisticsMatch.RunPermuted(g, s, Statistics.Counted(g, Analysis, xs), Statistics.Counted(g, Analysis, ys));
  }

  /** What the analysis of these records adds to a context. */
  function Gathered(g: Statistics.Settings, s: Statistics.Sides, xs: seq<Statistics.Step>): Statistics.Sides {
    Statistics.Fold(Statistics.Deltas(g), s, Statistics.Counted(g, Analysis, xs))
  }
}
